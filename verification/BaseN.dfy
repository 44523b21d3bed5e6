/**
 * Base64 (section 4 of RFC 4648) and unpadded base64url (section 5), as texts of whole groups of
 * three bytes and one shorter group.
 */
module BaseN {
  import opened Bytes
  import opened Wrappers
  import opened Division

  const PAD: byte := 0x3D

  /** The padded alphabet, or the one for URLs. */
  datatype Alphabet = Standard | Url

  function Symbol(a: Alphabet, v: nat): (r: byte)
    requires v < 64
  {
    if v < 26 then 0x41 + v
    else if v < 52 then 0x61 + (v - 26)
    else if v < 62 then 0x30 + (v - 52)
    else if v == 62 then (if a.Url? then 0x2D else 0x2B)
    else (if a.Url? then 0x5F else 0x2F)
  }

  function ValueOf(a: Alphabet, c: byte): (r: int) {
    if 0x41 <= c <= 0x5A then c - 0x41
    else if 0x61 <= c <= 0x7A then c - 0x61 + 26
    else if 0x30 <= c <= 0x39 then c - 0x30 + 52
    else if c == (if a.Url? then 0x2D else 0x2B) then 62
    else if c == (if a.Url? then 0x5F else 0x2F) then 63
    else -1
  }

  lemma SymbolsRoundTrip(a: Alphabet, v: nat, c: byte)
    ensures v < 64 ==> ValueOf(a, Symbol(a, v)) == v && Symbol(a, v) != PAD
    ensures ValueOf(a, c) >= 0 ==> ValueOf(a, c) < 64 && Symbol(a, ValueOf(a, c)) == c && c != PAD
  {
  }

  function Padding(a: Alphabet, n: nat): (r: bytes) { if a.Url? then [] else if n == 1 then [PAD] else [PAD, PAD] }

  function Quad(a: Alphabet, x: byte, y: byte, z: byte): (r: bytes) {
    [Symbol(a, x / 4), Symbol(a, x % 4 * 16 + y / 16), Symbol(a, y % 16 * 4 + z / 64), Symbol(a, z % 64)]
  }

  function Encoded(a: Alphabet, data: bytes): (r: bytes) {
    if |data| == 0 then []
    else if |data| == 1 then [Symbol(a, data[0] / 4), Symbol(a, data[0] % 4 * 16)] + Padding(a, 2)
    else if |data| == 2 then
      [Symbol(a, data[0] / 4), Symbol(a, data[0] % 4 * 16 + data[1] / 16), Symbol(a, data[1] % 16 * 4)] + Padding(a, 1)
    else Quad(a, data[0], data[1], data[2]) + Encoded(a, data[3..])
  }

  // ----- reading, group by group -----

  predicate Known(a: Alphabet, s: bytes) { forall i | 0 <= i < |s| :: ValueOf(a, s[i]) >= 0 }

  function FirstByte(a: Alphabet, s: bytes): (r: byte)
    requires |s| >= 2 && Known(a, s)
  {
    SymbolsRoundTrip(a, 0, s[0]);
    SymbolsRoundTrip(a, 0, s[1]);
    ValueOf(a, s[0]) * 4 + ValueOf(a, s[1]) / 16
  }

  function SecondByte(a: Alphabet, s: bytes): (r: byte)
    requires |s| >= 3 && Known(a, s)
  {
    SymbolsRoundTrip(a, 0, s[1]);
    SymbolsRoundTrip(a, 0, s[2]);
    ValueOf(a, s[1]) % 16 * 16 + ValueOf(a, s[2]) / 4
  }

  function ThirdByte(a: Alphabet, s: bytes): (r: byte)
    requires |s| >= 4 && Known(a, s)
  {
    SymbolsRoundTrip(a, 0, s[2]);
    SymbolsRoundTrip(a, 0, s[3]);
    ValueOf(a, s[2]) % 4 * 64 + ValueOf(a, s[3])
  }

  /** The short last group, without its padding: bits that stand for nothing must be zero. */
  function DecodedEnd(a: Alphabet, s: bytes): (r: Option<bytes>) {
    if !Known(a, s) then None
    else if |s| == 2 then if ValueOf(a, s[1]) % 16 != 0 then None else Some([FirstByte(a, s)])
    else if |s| == 3 then if ValueOf(a, s[2]) % 4 != 0 then None else Some([FirstByte(a, s), SecondByte(a, s)])
    else None
  }

  function DecodedFull(a: Alphabet, s: bytes): (r: Option<bytes>)
    requires |s| == 4
  {
    if !Known(a, s) then None else Some([FirstByte(a, s), SecondByte(a, s), ThirdByte(a, s)])
  }

  /** Whether the last group ends here, and what it is without padding. */
  function EndOf(a: Alphabet, s: bytes): (r: Option<bytes>) {
    if a.Url? then (if 0 < |s| < 4 then Some(s) else None)
    else if |s| == 4 && s[3] == PAD then Some(if s[2] == PAD then s[..2] else s[..3]) else None
  }

  function Decoded(a: Alphabet, s: bytes): (r: Option<bytes>) {
    if s == [] then Some([])
    else if EndOf(a, s).Some? then DecodedEnd(a, EndOf(a, s).value)
    else if |s| < 4 then None
    else
      match DecodedFull(a, s[..4])
      case None => None
      case Some(first) =>
        match Decoded(a, s[4..])
        case None => None
        case Some(rest) => Some(first + rest)
  }

  /** Six-bit digits of one byte and the next. */
  lemma DigitsJoin(x: byte, y: byte, z: byte)
    ensures x / 4 * 4 + (x % 4 * 16 + y / 16) / 16 == x && (x % 4 * 16 + y / 16) % 16 == y / 16
    ensures y / 16 * 16 + (y % 16 * 4 + z / 64) / 4 == y && (y % 16 * 4 + z / 64) % 4 == z / 64
    ensures z / 64 * 64 + z % 64 == z && y % 16 * 4 % 4 == 0 && x % 4 * 16 % 16 == 0
    ensures y / 16 * 16 + y % 16 * 4 / 4 == y && x / 4 * 4 + x % 4 * 16 / 16 == x
  {
  }

  lemma QuadDecodes(a: Alphabet, x: byte, y: byte, z: byte)
    ensures var s := Quad(a, x, y, z); Known(a, s) && s[3] != PAD && DecodedFull(a, s) == Some([x, y, z])
  {
    hide ValueOf, Symbol;
    DigitsJoin(x, y, z);
    SymbolsRoundTrip(a, x / 4, 0);
    SymbolsRoundTrip(a, x % 4 * 16 + y / 16, 0);
    SymbolsRoundTrip(a, y % 16 * 4 + z / 64, 0);
    SymbolsRoundTrip(a, z % 64, 0);
  }

  /** The digits come back out of the bytes they were joined into. */
  lemma DigitsPart(v0: nat, v1: nat, v2: nat, v3: nat)
    requires v0 < 64 && v1 < 64 && v2 < 64 && v3 < 64
    ensures var x, y, z := v0 * 4 + v1 / 16, v1 % 16 * 16 + v2 / 4, v2 % 4 * 64 + v3;
            && x / 4 == v0 && x % 4 * 16 + y / 16 == v1 && y % 16 * 4 + z / 64 == v2 && z % 64 == v3
            && (v1 % 16 == 0 ==> x % 4 * 16 == v1) && (v2 % 4 == 0 ==> y % 16 * 4 == v2)
  {
    DivisionUnique(v0 * 4 + v1 / 16, 4, v0, v1 / 16);
    DivisionUnique(v1 % 16 * 16 + v2 / 4, 16, v1 % 16, v2 / 4);
    DivisionUnique(v2 % 4 * 64 + v3, 64, v2 % 4, v3);
  }

  lemma QuadEncodes(a: Alphabet, s: bytes)
    requires |s| == 4 && Known(a, s)
    ensures Quad(a, FirstByte(a, s), SecondByte(a, s), ThirdByte(a, s)) == s
  {
    hide ValueOf, Symbol;
    SymbolsRoundTrip(a, 0, s[0]);
    SymbolsRoundTrip(a, 0, s[1]);
    SymbolsRoundTrip(a, 0, s[2]);
    SymbolsRoundTrip(a, 0, s[3]);
    DigitsPart(ValueOf(a, s[0]), ValueOf(a, s[1]), ValueOf(a, s[2]), ValueOf(a, s[3]));
  }

  lemma EndDecodes(a: Alphabet, data: bytes)
    requires 1 <= |data| <= 2
    ensures var s := Encoded(a, data); EndOf(a, s).Some? && DecodedEnd(a, EndOf(a, s).value) == Some(data) && s != []
  {
    hide ValueOf, Symbol;
    var s := Encoded(a, data);
    DigitsJoin(data[0], if |data| == 1 then 0 else data[1], 0);
    SymbolsRoundTrip(a, data[0] / 4, 0);
    if |data| == 1 {
      SymbolsRoundTrip(a, data[0] % 4 * 16, 0);
      assert EndOf(a, s).value == s[..2] && data == [data[0]];
    } else {
      SymbolsRoundTrip(a, data[0] % 4 * 16 + data[1] / 16, 0);
      SymbolsRoundTrip(a, data[1] % 16 * 4, 0);
      assert EndOf(a, s).value == s[..3] && data == [data[0], data[1]];
    }
  }

  lemma EndEncodes(a: Alphabet, s: bytes)
    requires EndOf(a, s).Some? && DecodedEnd(a, EndOf(a, s).value).Some?
    ensures Encoded(a, DecodedEnd(a, EndOf(a, s).value).value) == s
  {
    hide ValueOf, Symbol;
    var e := EndOf(a, s).value;
    SymbolsRoundTrip(a, 0, e[0]);
    SymbolsRoundTrip(a, 0, e[1]);
    if |e| == 2 {
      DigitsPart(ValueOf(a, e[0]), ValueOf(a, e[1]), 0, 0);
      assert s == e + Padding(a, 2);
    } else {
      SymbolsRoundTrip(a, 0, e[2]);
      DigitsPart(ValueOf(a, e[0]), ValueOf(a, e[1]), ValueOf(a, e[2]), 0);
      assert s == e + Padding(a, 1);
    }
  }

  /** Decoding accepts exactly the texts the encoder writes, and gives back what was encoded. */
  lemma {:induction false} DecodeUndoesEncode(a: Alphabet, data: bytes)
    ensures Decoded(a, Encoded(a, data)) == Some(data)
    decreases |data|
  {
    hide Symbol, ValueOf, DecodedFull, DecodedEnd, Quad;
    if |data| >= 3 {
      QuadDecodes(a, data[0], data[1], data[2]);
      QuadLength(a, data[0], data[1], data[2]);
      var q, rest := Quad(a, data[0], data[1], data[2]), Encoded(a, data[3..]);
      assert (q + rest)[..4] == q && (q + rest)[4..] == rest && (q + rest)[3] == q[3];
      DecodeUndoesEncode(a, data[3..]);
      assert data == [data[0], data[1], data[2]] + data[3..];
    } else if |data| > 0 {
      EndDecodes(a, data);
    }
  }

  lemma QuadLength(a: Alphabet, x: byte, y: byte, z: byte)
    ensures |Quad(a, x, y, z)| == 4
  {
  }

  lemma {:induction false} EncodeUndoesDecode(a: Alphabet, s: bytes)
    requires Decoded(a, s).Some?
    ensures Encoded(a, Decoded(a, s).value) == s
    decreases |s|
  {
    hide Symbol, ValueOf, DecodedEnd, Quad;
    if s == [] {
    } else if EndOf(a, s).Some? {
      EndEncodes(a, s);
    } else {
      QuadEncodes(a, s[..4]);
      EncodeUndoesDecode(a, s[4..]);
      var first, rest := DecodedFull(a, s[..4]).value, Decoded(a, s[4..]).value;
      assert (first + rest)[3..] == rest && first[0] == (first + rest)[0] && first[1] == (first + rest)[1]
             && first[2] == (first + rest)[2];
    }
  }

  /** Both directions at once. */
  lemma DecodesExactly(a: Alphabet, s: bytes, data: bytes)
    ensures Decoded(a, s) == Some(data) <==> s == Encoded(a, data)
  {
    DecodeUndoesEncode(a, data);
    if Decoded(a, s) == Some(data) {
      EncodeUndoesDecode(a, s);
    }
  }

  // ----- encoders -----

  lemma {:induction false} EncodedConcat(a: Alphabet, done: bytes, more: bytes)
    requires |done| % 3 == 0
    ensures Encoded(a, done + more) == Encoded(a, done) + Encoded(a, more)
    decreases |done|
  {
    hide Quad, Symbol;
    if done == [] {
      assert done + more == more;
    } else {
      assert (done + more)[3..] == done[3..] + more;
      EncodedConcat(a, done[3..], more);
    }
  }

  function Bits(x: byte, y: byte, z: byte): (r: nat) { (x as int) * 0x1_0000 + (y as int) * 0x100 + z }

  /** The four digits of a 24-bit group, as shifts and masks take them out. */
  lemma GroupDigits(x: byte, y: byte, z: byte)
    ensures var bits := Bits(x, y, z);
            && bits / 0x4_0000 % 64 == x / 4 && bits / 0x1000 % 64 == x % 4 * 16 + y / 16
            && bits / 64 % 64 == y % 16 * 4 + z / 64 && bits % 64 == z % 64
  {
    var bits := Bits(x, y, z);
    var a, b, c, d, e, f: nat := x / 4, x % 4, y / 16, y % 16, z / 64, z % 64;
    assert x == 4 * a + b && y == 16 * c + d && z == 64 * e + f;
    var second, third := b * 16 + c, d * 4 + e;
    DivisionUnique(bits, 0x4_0000, a, second * 0x1000 + third * 64 + f);
    DivisionUnique(bits, 0x1000, a * 64 + second, third * 64 + f);
    DivisionUnique(bits, 64, (a * 64 + second) * 64 + third, f);
    DivisionUnique(a, 64, 0, a);
    DivisionUnique(a * 64 + second, 64, a, second);
    DivisionUnique((a * 64 + second) * 64 + third, 64, a * 64 + second, third);
  }

  /** What is written for one group, whole or short. */
  function Written(a: Alphabet, x: byte, y: byte, z: byte, remaining: nat): (r: bytes)
    requires remaining > 0
  {
    [Symbol(a, Bits(x, y, z) / 0x4_0000 % 64), Symbol(a, Bits(x, y, z) / 0x1000 % 64)]
    + ((if remaining > 1 then [Symbol(a, Bits(x, y, z) / 64 % 64)] else Padding(a, 1))
    + (if remaining > 2 then [Symbol(a, Bits(x, y, z) % 64)] else Padding(a, 1)))
  }

  lemma WrittenIsGroup(a: Alphabet, rest: bytes)
    requires rest != []
    ensures Written(a, rest[0], if |rest| > 1 then rest[1] else 0, if |rest| > 2 then rest[2] else 0, |rest|)
            == GroupOf(a, rest)
  {
    hide Symbol, Bits;
    GroupDigits(rest[0], if |rest| > 1 then rest[1] else 0, if |rest| > 2 then rest[2] else 0);
    var nothing: bytes := [];
    if |rest| > 2 {
      var g := rest[..3];
      assert g[3..] == nothing && Encoded(a, nothing) == nothing;
      assert Encoded(a, g) == Quad(a, g[0], g[1], g[2]) + Encoded(a, g[3..]);
      assert Quad(a, g[0], g[1], g[2]) + nothing == Quad(a, g[0], g[1], g[2]);
    }
  }

  /** The part of the input that whole groups up to an offset have read. */
  function Consumed(input: bytes, offset: nat): (r: bytes) { if offset < |input| then input[..offset] else input }

  lemma NextGroup(input: bytes, offset: nat)
    requires offset < |input| && offset % 3 == 0
    ensures var remaining := |input| - offset;
            var x: byte := input[offset];
            var y: byte := if remaining > 1 then input[offset + 1] else 0;
            var z: byte := if remaining > 2 then input[offset + 2] else 0;
            var bits := Bits(x, y, z);
            Encoded(Standard, Consumed(input, offset)) +
              [Symbol(Standard, bits / 0x4_0000 % 64), Symbol(Standard, bits / 0x1000 % 64),
               if remaining > 1 then Symbol(Standard, bits / 64 % 64) else PAD,
               if remaining > 2 then Symbol(Standard, bits % 64) else PAD]
            == Encoded(Standard, Consumed(input, offset + 3))
  {
    hide Encoded, Symbol, Bits;
    WrittenIsGroup(Standard, input[offset..]);
    GroupAppends(Standard, input, offset, GroupOf(Standard, input[offset..]));
  }

  method AppendBase64(input: bytes, output: bytes) returns (result: bytes)
    ensures result == output + Encoded(Standard, input)
  {
    hide Symbol, Bits, Encoded;
    result := output;
    var offset := 0;
    NothingEncoded(Standard);
    assert Consumed(input, 0) == [];
    while offset < |input|
      invariant 0 <= offset && (offset < |input| ==> offset % 3 == 0)
      invariant result == output + Encoded(Standard, Consumed(input, offset))
    {
      var remaining := |input| - offset;
      var x: byte := input[offset];
      var y: byte := if remaining > 1 then input[offset + 1] else 0;
      var z: byte := if remaining > 2 then input[offset + 2] else 0;
      var bits := Bits(x, y, z);
      NextGroup(input, offset);
      ghost var before := Encoded(Standard, Consumed(input, offset));
      result := result + [Symbol(Standard, bits / 0x4_0000 % 64)];
      result := result + [Symbol(Standard, bits / 0x1000 % 64)];
      result := result + [if remaining > 1 then Symbol(Standard, bits / 64 % 64) else PAD];
      result := result + [if remaining > 2 then Symbol(Standard, bits % 64) else PAD];
      offset := offset + 3;
    }
  }

  function GroupOf(a: Alphabet, rest: bytes): (r: bytes)
    requires rest != []
  {
    Encoded(a, if |rest| < 3 then rest else rest[..3])
  }

  /** One more group of the input. */
  lemma GroupAppends(a: Alphabet, input: bytes, offset: nat, group: bytes)
    requires offset < |input| && offset % 3 == 0 && group == GroupOf(a, input[offset..])
    ensures Encoded(a, input[..offset]) + group
         == if offset + 3 < |input| then Encoded(a, input[..offset + 3]) else Encoded(a, input)
  {
    hide Encoded;
    var rest := input[offset..];
    var first := if |rest| < 3 then rest else rest[..3];
    EncodedConcat(a, input[..offset], first);
    if offset + 3 < |input| {
      assert input[..offset] + first == input[..offset + 3];
    } else {
      assert input[..offset] + first == input;
    }
  }

  lemma UrlGroup(data: bytes, index: nat)
    requires index + 3 <= |data| && index % 3 == 0
    ensures var value := Bits(data[index], data[index + 1], data[index + 2]);
            Encoded(Url, data[..index]) + [Symbol(Url, value / 0x4_0000 % 64), Symbol(Url, value / 0x1000 % 64),
              Symbol(Url, value / 64 % 64), Symbol(Url, value % 64)] == Encoded(Url, data[..index + 3])
  {
    hide Encoded, Symbol, Bits;
    WrittenIsGroup(Url, data[index..]);
    GroupAppends(Url, data, index, GroupOf(Url, data[index..]));
    assert index + 3 == |data| ==> data[..index + 3] == data;
  }

  lemma UrlTail(data: bytes, index: nat)
    requires index % 3 == 0 && index <= |data| < index + 3
    ensures var done, remaining := Encoded(Url, data[..index]), |data| - index;
            Encoded(Url, data) ==
            if remaining == 0 then done
            else
              var value := Bits(data[index], if remaining > 1 then data[index + 1] else 0, 0);
              done + if remaining == 1 then [Symbol(Url, value / 0x4_0000 % 64), Symbol(Url, value / 0x1000 % 64)]
                     else [Symbol(Url, value / 0x4_0000 % 64), Symbol(Url, value / 0x1000 % 64),
                         Symbol(Url, value / 64 % 64)]
  {
    hide Encoded, Symbol, Bits;
    if index < |data| {
      WrittenIsGroup(Url, data[index..]);
      GroupAppends(Url, data, index, GroupOf(Url, data[index..]));
    } else {
      assert data[..index] == data;
    }
  }

  method Base64Url(data: bytes) returns (output: bytes)
    ensures output == Encoded(Url, data)
  {
    hide Symbol, Bits, Encoded;
    output := [];
    var index := 0;
    NothingEncoded(Url);
    assert data[..0] == [];
    while index + 3 <= |data|
      invariant 0 <= index <= |data| && index % 3 == 0 && output == Encoded(Url, data[..index])
    {
      var value := Bits(data[index], data[index + 1], data[index + 2]);
      UrlGroup(data, index);
      output := output + [Symbol(Url, value / 0x4_0000 % 64)];
      output := output + [Symbol(Url, value / 0x1000 % 64)];
      output := output + [Symbol(Url, value / 64 % 64)];
      output := output + [Symbol(Url, value % 64)];
      index := index + 3;
    }
    UrlTail(data, index);
    var remaining := |data| - index;
    if remaining == 1 {
      var value := Bits(data[index], 0, 0);
      output := output + [Symbol(Url, value / 0x4_0000 % 64)];
      output := output + [Symbol(Url, value / 0x1000 % 64)];
    } else if remaining == 2 {
      var value := Bits(data[index], data[index + 1], 0);
      output := output + [Symbol(Url, value / 0x4_0000 % 64)];
      output := output + [Symbol(Url, value / 0x1000 % 64)];
      output := output + [Symbol(Url, value / 64 % 64)];
    }
  }

  lemma NothingEncoded(a: Alphabet)
    ensures Encoded(a, []) == []
  {
  }

  // ----- decoders -----

  function StandardGroup(s: bytes, last: bool): (r: Option<bytes>)
    requires |s| == 4
  {
    if last && s[3] == PAD then DecodedEnd(Standard, if s[2] == PAD then s[..2] else s[..3])
        else DecodedFull(Standard, s)
  }

  lemma StandardStep(s: bytes)
    requires |s| >= 4
    ensures Decoded(Standard, s) ==
      match StandardGroup(s[..4], |s| == 4) { case None => None case Some(g) =>
      match Decoded(Standard, s[4..]) { case None => None case Some(rest) => Some(g + rest) } }
  {
    hide DecodedFull, DecodedEnd;
    var nothing: bytes := [];
    if |s| == 4 {
      assert s[..4] == s && s[4..] == nothing;
      assert forall g: bytes :: g + nothing == g;
    }
  }

  lemma {:induction false} Ragged(s: bytes)
    requires |s| % 4 != 0
    ensures Decoded(Standard, s) == None
    decreases |s|
  {
    hide DecodedFull, DecodedEnd;
    if |s| > 4 {
      Ragged(s[4..]);
    }
  }

  /** The bytes of a group, as shifts and masks take them out. */
  lemma GroupBytes(v0: nat, v1: nat, v2: nat, v3: nat)
    requires v0 < 64 && v1 < 64 && v2 < 64 && v3 < 64
    ensures var bits := v0 * 0x4_0000 + v1 * 0x1000 + v2 * 64 + v3;
            && bits / 0x1_0000 % 0x100 == v0 * 4 + v1 / 16 && bits / 0x100 % 0x100 == v1 % 16 * 16 + v2 / 4
            && bits % 0x100 == v2 % 4 * 64 + v3
  {
    var bits := v0 * 0x4_0000 + v1 * 0x1000 + v2 * 64 + v3;
    var a, b, c, d := v1 / 16, v1 % 16, v2 / 4, v2 % 4;
    assert v1 == 16 * a + b && v2 == 4 * c + d;
    var high, middle, low := v0 * 4 + a, b * 16 + c, d * 64 + v3;
    DivisionUnique(bits, 0x1_0000, high, middle * 0x100 + low);
    DivisionUnique(bits, 0x100, high * 0x100 + middle, low);
    DivisionUnique(high * 0x100 + middle, 0x100, high, middle);
    DivisionUnique(high, 0x100, 0, high);
  }

  lemma KnownParts(a: Alphabet, s: bytes)
    requires |s| == 4
    ensures Known(a, s[..2]) <==> ValueOf(a, s[0]) >= 0 && ValueOf(a, s[1]) >= 0
    ensures Known(a, s[..3]) <==> Known(a, s[..2]) && ValueOf(a, s[2]) >= 0
    ensures Known(a, s) <==> Known(a, s[..3]) && ValueOf(a, s[3]) >= 0
  {
    hide ValueOf;
    assert s[..2][0] == s[0] && s[..2][1] == s[1];
    assert s[..3][0] == s[0] && s[..3][1] == s[1] && s[..3][2] == s[2];
  }

  method DecodeGroup(c0: byte, c1: byte, c2: byte, c3: byte, last: bool) returns (ok: bool, group: bytes)
    ensures StandardGroup([c0, c1, c2, c3], last) == if ok then Some(group) else None
  {
    hide ValueOf, Symbol, Known;
    group := [];
    ghost var s := [c0, c1, c2, c3];
    SymbolsRoundTrip(Standard, 0, c0);
    SymbolsRoundTrip(Standard, 0, c1);
    SymbolsRoundTrip(Standard, 0, c2);
    SymbolsRoundTrip(Standard, 0, c3);
    KnownParts(Standard, s);
    var v0, v1 := ValueOf(Standard, c0), ValueOf(Standard, c1);
    if v0 < 0 || v1 < 0 {
      return false, group;
    }
    var pad2, pad3 := c2 == PAD, c3 == PAD;
    if pad2 && !pad3 {
      return false, group;
    }
    if (pad2 || pad3) && !last {
      return false, group;
    }
    var v2 := if pad2 then 0 else ValueOf(Standard, c2);
    var v3 := if pad3 then 0 else ValueOf(Standard, c3);
    if v2 < 0 || v3 < 0 {
      return false, group;
    }
    GroupBytes(v0, v1, v2, v3);
    var bits := v0 * 0x4_0000 + v1 * 0x1000 + v2 * 64 + v3;
    group := group + [bits / 0x1_0000 % 0x100];
    if !pad2 {
      group := group + [bits / 0x100 % 0x100];
    }
    if !pad3 {
      group := group + [bits % 0x100];
    }
    if pad2 && v1 % 16 != 0 {
      return false, group;
    }
    if pad3 && !pad2 && v2 % 4 != 0 {
      return false, group;
    }
    var first, second, third := v0 * 4 + v1 / 16, v1 % 16 * 16 + v2 / 4, v2 % 4 * 64 + v3;
    assert group == if pad2 then [first] else if pad3 then [first, second] else [first, second, third];
    return true, group;
  }

  /** The decoder of the outbound protocol, four characters at a time. */
  method DecodeBase64(input: bytes) returns (ok: bool, output: bytes)
    ensures Decoded(Standard, input) == if ok then Some(output) else None
  {
    hide StandardGroup, Decoded;
    output := [];
    EmptyDecodes(Standard);
    if |input| == 0 {
      assert input == [];
      return true, output;
    }
    if |input| % 4 != 0 {
      Ragged(input);
      return false, output;
    }
    var offset := 0;
    assert input[0..] == input && forall rest: bytes :: output + rest == rest;
    while offset < |input|
      invariant 0 <= offset <= |input| && offset % 4 == 0
      invariant Decoded(Standard, input) ==
        match Decoded(Standard, input[offset..]) { case None => None case Some(rest) => Some(output + rest) }
    {
      ghost var rest := input[offset..];
      StandardStep(rest);
      assert rest[..4] == [input[offset], input[offset + 1], input[offset + 2], input[offset + 3]];
      assert rest[4..] == input[offset + 4..];
      var accepted, group :=
        DecodeGroup(input[offset], input[offset + 1], input[offset + 2], input[offset + 3], offset + 4 == |input|);
      if !accepted {
        return false, output;
      }
      ghost var before := output;
      output := output + group;
      assert forall more: bytes :: before + (group + more) == output + more;
      offset := offset + 4;
    }
    var nothing: bytes := [];
    assert input[offset..] == nothing && output + nothing == output;
    return true, output;
  }

  lemma EmptyDecodes(a: Alphabet)
    ensures Decoded(a, []) == Some([])
  {
  }

  // ----- the streaming decoder -----

  const TWO32: nat := 0x1_0000_0000

  /** Bits of the accumulator that are still to be used after so many characters. */
  function Pending(count: nat): (r: nat) { [0, 6, 4, 2][count % 4] }

  function Weight(bits: nat): (w: nat)
    ensures w > 0
  {
    if bits == 0 then 1 else if bits == 2 then 4 else if bits == 4 then 16 else 64
  }

  /** What the characters of a group that has begun have given so far. */
  function Begun(s: bytes): (r: bytes)
    requires |s| < 4 && Known(Url, s)
  {
    if |s| < 2 then [] else if |s| == 2 then [FirstByte(Url, s)] else [FirstByte(Url, s), SecondByte(Url, s)]
  }

  /** The low bits of the accumulator are those of the last character that are not written yet. */
  predicate Holds(s: bytes, accumulator: nat)
    requires |s| < 4 && Known(Url, s)
  {
    match |s|
    case 0 => true
    case 1 => accumulator % 64 == ValueOf(Url, s[0])
    case 2 => accumulator % 16 == ValueOf(Url, s[1]) % 16
    case _ => accumulator % 4 == ValueOf(Url, s[2]) % 4
  }

  /** Wrapping at 32 bits does not reach the bits in use. */
  lemma WrapKeepsLow(accumulator: nat, v: nat) returns (j: int)
    ensures (accumulator * 64 + v) % TWO32 == 4096 * j + (accumulator % 64 * 64 + v)
  {
    var x := accumulator * 64 + v;
    j := accumulator / 64 - x / TWO32 * 0x10_0000;
    assert x == accumulator / 64 * 4096 + (accumulator % 64 * 64 + v);
  }

  lemma LowDigits(j: int, a: nat, v: nat)
    requires a < 64 && v < 64
    ensures var next := 4096 * j + (a * 64 + v); next % 64 == v && next % 16 == v % 16 && next % 4 == v % 4
  {
    var next := 4096 * j + (a * 64 + v);
    DivisionUnique(next, 64, 64 * j + a, v);
    DivisionUnique(next, 16, 256 * j + 4 * a + v / 16, v % 16);
    DivisionUnique(next, 4, 1024 * j + 16 * a + v / 4, v % 4);
  }

  lemma BytesOut(j: int, a: nat, v: nat)
    requires a < 64 && v < 64
    ensures var next := 4096 * j + (a * 64 + v);
            && next / 16 % 256 == a * 4 + v / 16 && next / 4 % 256 == a % 16 * 16 + v / 4
               && next % 256 == a % 4 * 64 + v
  {
    var next := 4096 * j + (a * 64 + v);
    DivisionUnique(next, 16, 256 * j + (a * 4 + v / 16), v % 16);
    DivisionUnique(next / 16, 256, j, a * 4 + v / 16);
    DivisionUnique(next, 4, 256 * (4 * j + a / 16) + (a % 16 * 16 + v / 4), v % 4);
    DivisionUnique(next / 4, 256, 4 * j + a / 16, a % 16 * 16 + v / 4);
    DivisionUnique(next, 256, 16 * j + a / 4, a % 4 * 64 + v);
  }

  lemma LowOfLow(accumulator: nat)
    ensures accumulator % 64 % 16 == accumulator % 16 && accumulator % 64 % 4 == accumulator % 4
  {
    var q, r := accumulator / 64, accumulator % 64;
    DivisionUnique(accumulator, 16, 4 * q + r / 16, r % 16);
    DivisionUnique(accumulator, 4, 16 * q + r / 4, r % 4);
  }

  /** The bits written out of an accumulator whose low bits are known. */
  lemma TakeByte(accumulator: nat, v: nat)
    requires v < 64
    ensures var next := (accumulator * 64 + v) % TWO32;
            && next % 64 == v && next % 16 == v % 16 && next % 4 == v % 4
            && next / 16 % 256 == accumulator % 64 * 4 + v / 16
            && next / 4 % 256 == accumulator % 16 * 16 + v / 4
            && next % 256 == accumulator % 4 * 64 + v
  {
    var j := WrapKeepsLow(accumulator, v);
    LowDigits(j, accumulator % 64, v);
    BytesOut(j, accumulator % 64, v);
    LowOfLow(accumulator);
  }

  /** One more character of a group: what is written, and what the accumulator keeps. */
  lemma OneMore(s: bytes, accumulator: nat, c: byte)
    requires |s| < 4 && Known(Url, s) && Holds(s, accumulator) && ValueOf(Url, c) >= 0
    ensures var next := (accumulator * 64 + ValueOf(Url, c)) % TWO32;
            var t := s + [c];
            && Known(Url, t)
            && (|s| < 3 ==> Holds(t, next))
            && (|s| == 1 ==> next / 16 % 256 == FirstByte(Url, t))
            && (|s| == 2 ==> next / 4 % 256 == SecondByte(Url, t))
            && (|s| == 3 ==> next % 256 == ThirdByte(Url, t))
  {
    hide ValueOf;
    SymbolsRoundTrip(Url, 0, c);
    TakeByte(accumulator, ValueOf(Url, c));
    var t := s + [c];
    assert forall i | 0 <= i < |s| :: t[i] == s[i];
  }

  lemma UnknownRefused(s: bytes, i: nat)
    requires i < |s| && i < 4 && ValueOf(Url, s[i]) < 0
    ensures Decoded(Url, s) == None
  {
    hide ValueOf;
    if |s| >= 4 {
      assert s[..4][i] == s[i];
    }
  }

  /** A group that has been read whole. */
  lemma GroupDone(s: bytes, group: bytes)
    requires |s| >= 4 && DecodedFull(Url, s[..4]) == Some(group)
    ensures Decoded(Url, s) == match Decoded(Url, s[4..]) { case None => None case Some(rest) => Some(group + rest) }
  {
    hide DecodedFull;
  }

  /** What the last characters mean once there are no more. */
  lemma StreamEnds(s: bytes, accumulator: nat)
    requires |s| < 4 && |s| != 1 && Known(Url, s) && Holds(s, accumulator)
    ensures Decoded(Url, s) == if |s| > 0 && accumulator % Weight(Pending(|s|)) != 0 then None else Some(Begun(s))
  {
    hide ValueOf;
  }

  /** The characters of the group that has begun. */
  function GroupSoFar(input: bytes, count: nat): (r: bytes)
    requires count <= |input|
  {
    input[count - count % 4..count]
  }

  /** Where the stream decoder stands: whole groups are written out, the begun one is in output and accumulator. */
  ghost predicate Streaming(input: bytes, count: nat, full: bytes, output: bytes, accumulator: nat) {
    && count <= |input| && Known(Url, GroupSoFar(input, count)) && Holds(GroupSoFar(input, count), accumulator)
    && output == full + Begun(GroupSoFar(input, count))
    && Decoded(Url, input) ==
         match Decoded(Url, input[count - count % 4..]) { case None => None case Some(rest) => Some(full + rest) }
  }

  lemma StreamRefuses(input: bytes, count: nat, full: bytes, output: bytes, accumulator: nat)
    requires Streaming(input, count, full, output, accumulator) && count < |input| && ValueOf(Url, input[count]) < 0
    ensures Decoded(Url, input) == None
  {
    hide ValueOf, Decoded, Begun, Holds, Known;
    var rest := input[count - count % 4..];
    assert rest[count % 4] == input[count];
    UnknownRefused(rest, count % 4);
  }

  lemma GroupGrows(input: bytes, count: nat)
    requires count < |input|
    ensures input[count - count % 4..count + 1] == GroupSoFar(input, count) + [input[count]]
    ensures count % 4 < 3 ==> GroupSoFar(input, count + 1) == GroupSoFar(input, count) + [input[count]]
    ensures count % 4 == 3 ==> GroupSoFar(input, count + 1) == []
  {
    DivisionUnique(count + 1, 4, if count % 4 < 3 then count / 4 else count / 4 + 1, (count % 4 + 1) % 4);
    var base := count - count % 4;
    assert input[base..count + 1] == input[base..count] + [input[count]];
  }

  /** The last character of a group. */
  lemma StreamCloses(input: bytes, count: nat, full: bytes, output: bytes, accumulator: nat, next: nat)
      returns (more: bytes)
    requires Streaming(input, count, full, output, accumulator) && count < |input| && ValueOf(Url, input[count]) >= 0
             && count % 4 == 3
    requires Known(Url, GroupSoFar(input, count) + [input[count]])
    ensures more == output + [ThirdByte(Url, GroupSoFar(input, count) + [input[count]])]
    ensures Streaming(input, count + 1, more, more, next)
  {
    hide ValueOf, Decoded, DecodedFull, Begun, Holds, Known, FirstByte, SecondByte, ThirdByte;
    var s, c := GroupSoFar(input, count), input[count];
    var t := s + [c];
    BegunMore(s, c);
    GroupGrows(input, count);
    var rest := input[count - count % 4..];
    assert rest[..4] == t && rest[4..] == input[count + 1..];
    GroupDone(rest, Begun(s) + [ThirdByte(Url, t)]);
    more := output + [ThirdByte(Url, t)];
    assert forall tail: bytes :: full + ((Begun(s) + [ThirdByte(Url, t)]) + tail) == more + tail;
    StreamBegins();
    var nothing: bytes := [];
    assert more + nothing == more;
  }

  /** One character further. */
  lemma StreamStep(input: bytes, count: nat, full: bytes, output: bytes, accumulator: nat) returns (more: bytes)
    requires Streaming(input, count, full, output, accumulator) && count < |input| && ValueOf(Url, input[count]) >= 0
    ensures var next := (accumulator * 64 + ValueOf(Url, input[count])) % TWO32;
            var written := if count % 4 == 0 then [] else [next / Weight(Pending(count + 1)) % 0x100];
            Streaming(input, count + 1, more, output + written, next)
  {
    hide ValueOf, Decoded, DecodedFull, Begun, Holds, Known, FirstByte, SecondByte, ThirdByte;
    var s, c := GroupSoFar(input, count), input[count];
    OneMore(s, accumulator, c);
    BegunMore(s, c);
    GroupGrows(input, count);
    more := full;
    if count % 4 == 3 {
      more := StreamCloses(input, count, full, output, accumulator, (accumulator * 64 + ValueOf(Url, c)) % TWO32);
    }
  }

  lemma StreamStarts(input: bytes)
    ensures Streaming(input, 0, [], [], 0)
  {
    hide ValueOf, Decoded;
    var nothing: bytes := [];
    assert GroupSoFar(input, 0) == nothing && input[0..] == input;
    assert forall rest: bytes :: nothing + rest == rest;
  }

  lemma StreamFinishes(input: bytes, full: bytes, output: bytes, accumulator: nat)
    requires Streaming(input, |input|, full, output, accumulator) && |input| % 4 != 1
    ensures Decoded(Url, input)
         == if Pending(|input|) != 0 && accumulator % Weight(Pending(|input|)) != 0 then None else Some(output)
  {
    hide ValueOf, Decoded, Begun, Holds, Known, Weight;
    var s := GroupSoFar(input, |input|);
    assert input[|input| - |input| % 4..] == s;
    StreamEnds(s, accumulator);
  }

  lemma PendingStep(count: nat)
    ensures Pending(count) + 6 >= 8 <==> count % 4 != 0
    ensures Pending(count + 1) == if count % 4 != 0 then Pending(count) - 2 else Pending(count) + 6
  {
  }

  /** The decoder of tokens: one character at a time into a 32-bit accumulator that wraps. */
  method DecodeBase64Url(input: bytes) returns (ok: bool, output: bytes)
    ensures ok <==> input != [] && Decoded(Url, input).Some?
    ensures ok ==> Decoded(Url, input) == Some(output)
  {
    hide ValueOf, Decoded, Streaming, Pending, Weight;
    output := [];
    if |input| == 0 {
      return false, output;
    }
    if |input| % 4 == 1 {
      OneLeftRefused(input);
      return false, output;
    }
    var accumulator: nat, bits: nat, count: nat := 0, 0, 0;
    ghost var full: bytes := [];
    StreamStarts(input);
    PendingStart();
    while count < |input|
      invariant 0 <= count <= |input| && accumulator < TWO32 && bits == Pending(count)
      invariant Streaming(input, count, full, output, accumulator)
    {
      var value := ValueOf(Url, input[count]);
      if value < 0 {
        StreamRefuses(input, count, full, output, accumulator);
        return false, output;
      }
      full := StreamStep(input, count, full, output, accumulator);
      PendingStep(count);
      accumulator := (accumulator * 64 + value) % TWO32;
      bits := bits + 6;
      ghost var before := output;
      if bits >= 8 {
        bits := bits - 8;
        output := output + [accumulator / Weight(bits) % 0x100];
      }
      assert count % 4 == 0 ==> before + [] == output;
      count := count + 1;
    }
    StreamFinishes(input, full, output, accumulator);
    if bits != 0 {
      if accumulator % Weight(bits) != 0 {
        return false, output;
      }
    }
    return true, output;
  }

  lemma PendingStart()
    ensures Pending(0) == 0
  {
  }

  lemma StreamBegins()
    ensures Known(Url, []) && Begun([]) == [] && forall accumulator :: Holds([], accumulator)
  {
  }

  lemma BegunMore(s: bytes, c: byte)
    requires |s| < 4 && Known(Url, s) && ValueOf(Url, c) >= 0
    ensures var t := s + [c];
            && Known(Url, t)
            && (|s| == 0 ==> Begun(t) == Begun(s))
            && (|s| == 1 ==> Begun(t) == Begun(s) + [FirstByte(Url, t)])
            && (|s| == 2 ==> Begun(t) == Begun(s) + [SecondByte(Url, t)])
            && (|s| == 3 ==> DecodedFull(Url, t) == Some(Begun(s) + [ThirdByte(Url, t)]))
  {
    hide ValueOf;
    var t := s + [c];
    assert forall i | 0 <= i < |s| :: t[i] == s[i];
    if |s| == 3 {
      assert t[0] == s[0] && t[1] == s[1] && t[2] == s[2];
      assert FirstByte(Url, s) == FirstByte(Url, t) && SecondByte(Url, s) == SecondByte(Url, t);
      assert Begun(s) + [ThirdByte(Url, t)] == [FirstByte(Url, t), SecondByte(Url, t), ThirdByte(Url, t)];
    }
  }

  lemma {:induction false} OneLeftRefused(s: bytes)
    requires |s| % 4 == 1
    ensures Decoded(Url, s) == None
    decreases |s|
  {
    hide DecodedFull;
    if |s| > 4 {
      OneLeftRefused(s[4..]);
    }
  }

  // ----- both codecs, there and back -----

  /** Encoding and decoding with the protocol's own pair, in both directions. */
  method Base64RoundTrip(data: bytes, text: bytes) returns (back: bytes, accepted: bool, again: bytes)
    ensures back == data
    ensures accepted ==> again == text
    ensures accepted <==> exists d :: Encoded(Standard, d) == text
  {
    var encoded := AppendBase64(data, []);
    assert [] + Encoded(Standard, data) == Encoded(Standard, data);
    DecodeUndoesEncode(Standard, data);
    var ok;
    ok, back := DecodeBase64(encoded);
    var decoded;
    accepted, decoded := DecodeBase64(text);
    again := AppendBase64(decoded, []);
    assert [] + Encoded(Standard, decoded) == Encoded(Standard, decoded);
    forall d ensures Decoded(Standard, text) == Some(d) <==> text == Encoded(Standard, d) {
      DecodesExactly(Standard, text, d);
    }
  }

  /** The same for base64url, whose decoder refuses the empty text. */
  method Base64UrlRoundTrip(data: bytes, text: bytes) returns (sent: bool, back: bytes, accepted: bool, again: bytes)
    ensures sent <==> data != []
    ensures sent ==> back == data
    ensures accepted ==> again == text
    ensures accepted <==> text != [] && exists d :: Encoded(Url, d) == text
  {
    var encoded := Base64Url(data);
    DecodeUndoesEncode(Url, data);
    EncodedIsEmpty(data);
    sent, back := DecodeBase64Url(encoded);
    var decoded;
    accepted, decoded := DecodeBase64Url(text);
    again := Base64Url(decoded);
    forall d ensures Decoded(Url, text) == Some(d) <==> text == Encoded(Url, d) {
      DecodesExactly(Url, text, d);
    }
  }

  lemma EncodedIsEmpty(data: bytes)
    ensures Encoded(Url, data) == [] <==> data == []
  {
    hide Symbol;
  }

  // ----- the alphabets -----

  const CAPITALS: string := "ABCDEFGHIJKLMNOPQRSTUVWXYZ"
  const SMALL: string := "abcdefghijklmnopqrstuvwxyz"
  const FIGURES: string := "0123456789"

  /** The table of an alphabet. */
  function Table(a: Alphabet): (r: string) { CAPITALS + SMALL + FIGURES + (if a.Url? then "-_" else "+/") }

  lemma CapitalAt(v: nat)
    requires v < 26
    ensures |CAPITALS| == 26 && CAPITALS[v] as int == 0x41 + v
  {
  }

  lemma SmallAt(v: nat)
    requires v < 26
    ensures |SMALL| == 26 && SMALL[v] as int == 0x61 + v
  {
  }

  lemma FigureAt(v: nat)
    requires v < 10
    ensures |FIGURES| == 10 && FIGURES[v] as int == 0x30 + v
  {
  }

  /** A digit is written as the character at its place in the table of its alphabet. */
  lemma AlphabetIs(a: Alphabet, v: nat)
    requires v < 64
    ensures |Table(a)| == 64 && Symbol(a, v) == Table(a)[v] as int
  {
    var last := if a.Url? then "-_" else "+/";
    if v < 26 {
      CapitalAt(v);
      assert Table(a)[v] == CAPITALS[v];
    } else if v < 52 {
      SmallAt(v - 26);
      assert Table(a)[v] == SMALL[v - 26];
    } else if v < 62 {
      FigureAt(v - 52);
      assert Table(a)[v] == FIGURES[v - 52];
    } else {
      assert Table(a)[v] == last[v - 62];
    }
  }

  /** Three bytes and the four digits written for them are one number of 24 bits. */
  lemma GroupIsNumber(a: Alphabet, x: byte, y: byte, z: byte)
    ensures var q := Encoded(a, [x, y, z]);
            && |q| == 4 && (forall i | 0 <= i < 4 :: ValueOf(a, q[i]) >= 0)
            && ((ValueOf(a, q[0]) * 64 + ValueOf(a, q[1])) * 64 + ValueOf(a, q[2])) * 64 + ValueOf(a, q[3])
               == (x as int * 0x100 + y) * 0x100 + z
  {
    hide Symbol, ValueOf;
    SymbolsRoundTrip(a, x / 4, 0);
    SymbolsRoundTrip(a, x % 4 * 16 + y / 16, 0);
    SymbolsRoundTrip(a, y % 16 * 4 + z / 64, 0);
    SymbolsRoundTrip(a, z % 64, 0);
    var rest: bytes := [x, y, z][3..];
    assert rest == [];
    assert Encoded(a, [x, y, z]) == Quad(a, x, y, z) + Encoded(a, rest) == Quad(a, x, y, z);
  }
}
