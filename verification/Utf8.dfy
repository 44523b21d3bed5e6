/**
 * UTF-8 as server_engine/json/json_unicode.hpp and server_engine/filesystem_path.cpp read and
 * write it (RFC 3629, sections 3 and 4). Shifts and masks are written as products, quotients
 * and remainders by powers of two; no value here exceeds 21 bits, so the 32-bit accumulators of
 * the source never wrap.
 */
module Utf8 {
  import opened Bytes

  predicate IsHighSurrogate(c: int) { 0xD800 <= c <= 0xDBFF }

  predicate IsLowSurrogate(c: int) { 0xDC00 <= c <= 0xDFFF }

  predicate IsScalar(c: int) {
    0 <= c <= 0x10FFFF && !(0xD800 <= c <= 0xDFFF)
  }

  /** The bytes appended for one code point. */
  function Encode(c: nat): (r: bytes) {
    if c <= 0x7F then [c]
    else if c <= 0x7FF then [0xC0 + c / 0x40 % 0x20, 0x80 + c % 0x40]
    else if c <= 0xFFFF then [0xE0 + c / 0x1000 % 0x10, 0x80 + c / 0x40 % 0x40, 0x80 + c % 0x40]
    else [0xF0 + c / 0x40000 % 8, 0x80 + c / 0x1000 % 0x40, 0x80 + c / 0x40 % 0x40, 0x80 + c % 0x40]
  }

  datatype Status =
    | Ok
    | Truncated
    | InvalidLeading
    | InvalidContinuation
    | Overlong
    | InvalidCodepoint

  datatype Decoded = Decoded(status: Status, codepoint: nat, length: nat)

  /** What a leading byte announces; length 0 when it cannot lead. */
  datatype Lead = Lead(length: nat, bits: nat, minimum: nat)

  function LeadOf(first: byte): (r: Lead) {
    if 0xC2 <= first <= 0xDF then Lead(2, first % 0x20, 0x80)
    else if 0xE0 <= first <= 0xEF then Lead(3, first % 0x10, 0x800)
    else if 0xF0 <= first <= 0xF4 then Lead(4, first % 8, 0x10000)
    else Lead(0, 0, 0)
  }

  predicate IsContinuation(b: byte) { b / 0x40 == 2 }

  /** The range checks made once every continuation byte has been folded in. */
  function Finish(lead: Lead, codepoint: nat): (r: Decoded) {
    if codepoint < lead.minimum then Decoded(Overlong, codepoint, lead.length)
    else if !IsScalar(codepoint) then Decoded(InvalidCodepoint, codepoint, lead.length)
    else Decoded(Ok, codepoint, lead.length)
  }

  function Continue(text: bytes, offset: nat, lead: Lead, i: nat, codepoint: nat): (r: Decoded)
    requires 1 <= i <= lead.length && offset + lead.length <= |text|
    ensures r.length <= lead.length && (r.status.Ok? ==> r.length == lead.length)
    decreases lead.length - i
  {
    if i == lead.length then Finish(lead, codepoint)
    else if !IsContinuation(text[offset + i]) then Decoded(InvalidContinuation, 0, i)
    else Continue(text, offset, lead, i + 1, codepoint * 0x40 + text[offset + i] % 0x40)
  }

  function DecodeOne(text: bytes, offset: nat): (r: Decoded)
    ensures r.status.Ok? ==> 0 < r.length
    ensures offset <= |text| ==> offset + r.length <= |text|
  {
    if offset >= |text| then Decoded(Truncated, 0, 0)
    else
      var first := text[offset];
      var lead := LeadOf(first);
      if first <= 0x7F then Decoded(Ok, first, 1)
      else if lead.length == 0 then Decoded(InvalidLeading, 0, 1)
      else if offset + lead.length > |text| then Decoded(Truncated, 0, |text| - offset)
      else Continue(text, offset, lead, 1, lead.bits)
  }

  method DecodeOneByLoop(text: bytes, offset: nat) returns (r: Decoded)
    ensures r == DecodeOne(text, offset)
  {
    if offset >= |text| {
      return Decoded(Truncated, 0, 0);
    }
    var first := text[offset];
    if first <= 0x7F {
      return Decoded(Ok, first, 1);
    }
    var lead := LeadOf(first);
    if lead.length == 0 {
      return Decoded(InvalidLeading, 0, 1);
    }
    if offset + lead.length > |text| {
      return Decoded(Truncated, 0, |text| - offset);
    }
    var codepoint := lead.bits;
    var i := 1;
    while i < lead.length
      invariant 1 <= i <= lead.length
      invariant 0 <= codepoint && Continue(text, offset, lead, i, codepoint) == DecodeOne(text, offset)
    {
      var next := text[offset + i];
      if !IsContinuation(next) {
        return Decoded(InvalidContinuation, 0, i);
      }
      codepoint := codepoint * 0x40 + next % 0x40;
      i := i + 1;
    }
    if codepoint < lead.minimum {
      return Decoded(Overlong, codepoint, lead.length);
    }
    if !IsScalar(codepoint) {
      return Decoded(InvalidCodepoint, codepoint, lead.length);
    }
    return Decoded(Ok, codepoint, lead.length);
  }

  /** The code point folded from a lead and one, two or three continuation bytes. */
  function Folded(lead: Lead, tail: bytes): (r: nat)
    requires 1 <= |tail| <= 3
  {
    var c1 := lead.bits * 0x40 + tail[0] % 0x40;
    if |tail| == 1 then c1
    else
      var c2 := c1 * 0x40 + tail[1] % 0x40;
      if |tail| == 2 then c2 else c2 * 0x40 + tail[2] % 0x40
  }

  ghost predicate AllContinuation(tail: bytes) { forall k | 0 <= k < |tail| :: IsContinuation(tail[k]) }

  lemma ContinueFolds(text: bytes, offset: nat, lead: Lead, tail: bytes)
    requires 2 <= lead.length <= 4 && offset + lead.length <= |text|
    requires tail == text[offset + 1..offset + lead.length]
    ensures Continue(text, offset, lead, 1, lead.bits) ==
            if AllContinuation(tail) then Finish(lead, Folded(lead, tail))
            else Continue(text, offset, lead, 1, lead.bits).(status := InvalidContinuation)
  {
    assert forall k | 0 <= k < |tail| :: tail[k] == text[offset + 1 + k];
    var c1 := lead.bits * 0x40 + tail[0] % 0x40;
    if IsContinuation(tail[0]) {
      assert Continue(text, offset, lead, 1, lead.bits) == Continue(text, offset, lead, 2, c1);
      if lead.length > 2 {
        var c2 := c1 * 0x40 + tail[1] % 0x40;
        if IsContinuation(tail[1]) {
          assert Continue(text, offset, lead, 2, c1) == Continue(text, offset, lead, 3, c2);
          if lead.length > 3 && IsContinuation(tail[2]) {
            assert Continue(text, offset, lead, 3, c2) == Continue(text, offset, lead, 4, c2 * 0x40 + tail[2] % 0x40);
          }
        }
      }
    }
  }

  lemma SixBitGroups(c: nat)
    ensures c / 0x40 / 0x40 == c / 0x1000 && c / 0x1000 / 0x40 == c / 0x40000
    ensures c == c / 0x40 * 0x40 + c % 0x40
    ensures c / 0x40 == c / 0x1000 * 0x40 + c / 0x40 % 0x40
    ensures c / 0x1000 == c / 0x40000 * 0x40 + c / 0x1000 % 0x40
  {
  }

  lemma EncodeSplits2(c: nat)
    requires 0x7F < c <= 0x7FF && IsScalar(c)
    ensures var e := Encode(c);
            |e| == 2 && LeadOf(e[0]) == Lead(2, c / 0x40, 0x80) && e[0] > 0x7F && AllContinuation(e[1..])
                && Folded(LeadOf(e[0]), e[1..]) == c
  {
    SixBitGroups(c);
    assert c / 0x40 < 0x20;
    assert Encode(c) == [0xC0 + c / 0x40, 0x80 + c % 0x40];
    assert Encode(c)[1..] == [0x80 + c % 0x40];
    assert (0x80 + c % 0x40) % 0x40 == c % 0x40;
  }

  lemma EncodeSplits3(c: nat)
    requires 0x7FF < c <= 0xFFFF && IsScalar(c)
    ensures var e := Encode(c);
            |e| == 3 && LeadOf(e[0]) == Lead(3, c / 0x1000, 0x800) && e[0] > 0x7F && AllContinuation(e[1..])
                && Folded(LeadOf(e[0]), e[1..]) == c
  {
    SixBitGroups(c);
    assert c / 0x1000 < 0x10;
    assert Encode(c) == [0xE0 + c / 0x1000, 0x80 + c / 0x40 % 0x40, 0x80 + c % 0x40];
    assert Encode(c)[1..] == [0x80 + c / 0x40 % 0x40, 0x80 + c % 0x40];
    assert (0x80 + c / 0x40 % 0x40) % 0x40 == c / 0x40 % 0x40 && (0x80 + c % 0x40) % 0x40 == c % 0x40;
  }

  lemma EncodeSplits4(c: nat)
    requires 0xFFFF < c <= 0x10FFFF && IsScalar(c)
    ensures var e := Encode(c);
            |e| == 4 && LeadOf(e[0]) == Lead(4, c / 0x40000, 0x10000) && e[0] > 0x7F && AllContinuation(e[1..])
                && Folded(LeadOf(e[0]), e[1..]) == c
  {
    SixBitGroups(c);
    assert c / 0x40000 < 5;
    assert Encode(c) == [0xF0 + c / 0x40000, 0x80 + c / 0x1000 % 0x40, 0x80 + c / 0x40 % 0x40, 0x80 + c % 0x40];
    assert Encode(c)[1..] == [0x80 + c / 0x1000 % 0x40, 0x80 + c / 0x40 % 0x40, 0x80 + c % 0x40];
    assert (0x80 + c / 0x1000 % 0x40) % 0x40 == c / 0x1000 % 0x40
           && (0x80 + c / 0x40 % 0x40) % 0x40 == c / 0x40 % 0x40 && (0x80 + c % 0x40) % 0x40 == c % 0x40;
  }

  /** Splitting a code point into lead bits and six-bit groups loses nothing. */
  lemma EncodeSplits(c: nat)
    requires IsScalar(c) && c > 0x7F
    ensures var e := Encode(c); var lead := LeadOf(e[0]);
            lead.length == |e| && AllContinuation(e[1..]) && Folded(lead, e[1..]) == c && lead.minimum <= c
                && e[0] > 0x7F
  {
    if c <= 0x7FF {
      EncodeSplits2(c);
    } else if c <= 0xFFFF {
      EncodeSplits3(c);
    } else {
      EncodeSplits4(c);
    }
  }

  lemma FoldedEncodes2(lead: Lead, first: byte, t: byte)
    requires lead == LeadOf(first) && lead.length == 2 && IsContinuation(t)
             && Finish(lead, Folded(lead, [t])).status.Ok?
    ensures Encode(Folded(lead, [t])) == [first, t]
  {
    var c := Folded(lead, [t]);
    assert c / 0x40 == lead.bits && c % 0x40 == t % 0x40;
  }

  lemma FoldedEncodes3(lead: Lead, first: byte, t: byte, u: byte)
    requires lead == LeadOf(first) && lead.length == 3 && IsContinuation(t) && IsContinuation(u)
    requires Finish(lead, Folded(lead, [t, u])).status.Ok?
    ensures Encode(Folded(lead, [t, u])) == [first, t, u]
  {
    var c := Folded(lead, [t, u]);
    assert c / 0x40 == lead.bits * 0x40 + t % 0x40 && c % 0x40 == u % 0x40;
    assert c / 0x1000 == lead.bits;
  }

  lemma FoldedEncodes4(lead: Lead, first: byte, t: byte, u: byte, v: byte)
    requires lead == LeadOf(first) && lead.length == 4 && IsContinuation(t) && IsContinuation(u) && IsContinuation(v)
    requires Finish(lead, Folded(lead, [t, u, v])).status.Ok?
    ensures Encode(Folded(lead, [t, u, v])) == [first, t, u, v]
  {
    var c := Folded(lead, [t, u, v]);
    var hi := lead.bits * 0x40 + t % 0x40;
    assert c == (hi * 0x40 + u % 0x40) * 0x40 + v % 0x40;
    Groups4(hi, u % 0x40, v % 0x40);
    assert c / 0x40000 == lead.bits && c / 0x1000 % 0x40 == t % 0x40;
  }

  lemma Groups4(hi: nat, u: nat, v: nat)
    requires u < 0x40 && v < 0x40
    ensures var c := (hi * 0x40 + u) * 0x40 + v;
            c % 0x40 == v && c / 0x40 % 0x40 == u && c / 0x1000 == hi && c / 0x40000 == hi / 0x40
  {
    SixBitGroups((hi * 0x40 + u) * 0x40 + v);
  }

  /** Decoding undoes encoding, for every Unicode scalar value and wherever it stands. */
  lemma DecodeUndoesEncode(text: bytes, offset: nat, c: nat)
    requires IsScalar(c) && Occurs(text, offset, Encode(c))
    ensures DecodeOne(text, offset) == Decoded(Ok, c, |Encode(c)|)
  {
    var e := Encode(c);
    OccursAt(text, offset, e, 0);
    assert text[offset] == e[0];
    if c > 0x7F {
      EncodeSplits(c);
      assert text[offset + 1..offset + |e|] == text[offset..offset + |e|][1..] == e[1..];
      ContinueFolds(text, offset, LeadOf(e[0]), e[1..]);
    }
  }

  /** Only encoder output is accepted. */
  lemma DecodeAcceptsOnlyEncodings(text: bytes, offset: nat)
    requires DecodeOne(text, offset).status.Ok?
    ensures var d := DecodeOne(text, offset);
            IsScalar(d.codepoint) && d.length == |Encode(d.codepoint)| && Occurs(text, offset, Encode(d.codepoint))
  {
    var first := text[offset];
    if first <= 0x7F {
      assert text[offset..offset + 1] == [first];
    } else {
      var lead := LeadOf(first);
      var tail := text[offset + 1..offset + lead.length];
      ContinueFolds(text, offset, lead, tail);
      assert text[offset..offset + lead.length] == [first] + tail;
      if lead.length == 2 {
        assert tail == [tail[0]];
        FoldedEncodes2(lead, first, tail[0]);
      } else if lead.length == 3 {
        assert tail == [tail[0], tail[1]];
        FoldedEncodes3(lead, first, tail[0], tail[1]);
      } else {
        assert tail == [tail[0], tail[1], tail[2]];
        FoldedEncodes4(lead, first, tail[0], tail[1], tail[2]);
      }
    }
  }

  // ----- whole texts -----

  function EncodeAll(cs: seq<nat>): (r: bytes) {
    if cs == [] then [] else Encode(cs[0]) + EncodeAll(cs[1..])
  }

  ghost predicate Scalars(cs: seq<nat>) { forall i | 0 <= i < |cs| :: IsScalar(cs[i]) }

  /** The JSON decoder can step from the offset to the end of the text. */
  predicate Walks(text: bytes, offset: nat)
    requires offset <= |text|
    decreases |text| - offset
  {
    offset == |text| ||
    var d := DecodeOne(text, offset);
    d.status.Ok? && Walks(text, offset + d.length)
  }

  lemma WalksStep(text: bytes, offset: nat)
    requires offset <= |text|
    ensures Walks(text, |text|)
    ensures offset < |text| ==>
      (Walks(text, offset) <==> var d := DecodeOne(text, offset); d.status.Ok? && Walks(text, offset + d.length))
  {
  }

  lemma DecodeOneCases(text: bytes, offset: nat)
    requires offset < |text|
    ensures var first := text[offset]; var lead := LeadOf(first);
            if first <= 0x7F then DecodeOne(text, offset) == Decoded(Ok, first, 1)
            else if lead.length == 0 || offset + lead.length > |text| then !DecodeOne(text, offset).status.Ok?
            else DecodeOne(text, offset) == Continue(text, offset, lead, 1, lead.bits)
  {
  }

  /** The path validator accepts exactly the texts the JSON decoder can walk end to end. */
  method ValidUtf8(value: bytes) returns (ok: bool)
    ensures ok <==> Walks(value, 0)
  {
    hide Walks, DecodeOne;
    var offset := 0;
    WalksStep(value, 0);
    while offset < |value|
      invariant offset <= |value|
      invariant Walks(value, 0) <==> Walks(value, offset)
    {
      WalksStep(value, offset);
      DecodeOneCases(value, offset);
      var first := value[offset];
      if first <= 0x7F {
        offset := offset + 1;
        continue;
      }
      var lead := LeadOf(first);
      if lead.length == 0 {
        return false;
      }
      if offset + lead.length > |value| {
        return false;
      }
      var codepoint := lead.bits;
      var index := 1;
      while index < lead.length
        invariant 1 <= index <= lead.length
        invariant 0 <= codepoint && Continue(value, offset, lead, index, codepoint) == DecodeOne(value, offset)
      {
        var next := value[offset + index];
        if !IsContinuation(next) {
          return false;
        }
        codepoint := codepoint * 0x40 + next % 0x40;
        index := index + 1;
      }
      if codepoint < lead.minimum || codepoint > 0x10FFFF || 0xD800 <= codepoint <= 0xDFFF {
        return false;
      }
      assert DecodeOne(value, offset) == Decoded(Ok, codepoint, lead.length);
      offset := offset + lead.length;
    }
    return true;
  }

  /** The scalars of a walkable text. */
  lemma {:induction false} WalkYieldsScalars(text: bytes, offset: nat) returns (cs: seq<nat>)
    requires offset <= |text| && Walks(text, offset)
    ensures Scalars(cs) && text[offset..] == EncodeAll(cs)
    decreases |text| - offset
  {
    hide DecodeOne, Encode, Occurs, IsScalar;
    if offset == |text| {
      cs := [];
    } else {
      var d := DecodeOne(text, offset);
      DecodeAcceptsOnlyEncodings(text, offset);
      var rest := WalkYieldsScalars(text, offset + d.length);
      cs := [d.codepoint] + rest;
      assert cs[1..] == rest;
      SliceOccurs(text, offset, Encode(d.codepoint));
      assert text[offset..] == text[offset..offset + d.length] + text[offset + d.length..];
    }
  }

  lemma StepWalks(text: bytes, offset: nat, c: nat)
    requires IsScalar(c) && Occurs(text, offset, Encode(c)) && Walks(text, offset + |Encode(c)|)
    ensures Walks(text, offset)
  {
    DecodeUndoesEncode(text, offset, c);
  }

  lemma {:induction false} EncodingsWalk(text: bytes, offset: nat, cs: seq<nat>)
    requires Scalars(cs) && offset <= |text| && text[offset..] == EncodeAll(cs)
    ensures Walks(text, offset)
    decreases |cs|
  {
    hide DecodeOne, Encode, Walks, IsScalar;
    WalksStep(text, offset);
    if cs != [] {
      var e := Encode(cs[0]);
      assert text[offset..offset + |e|] == text[offset..][..|e|] == e;
      assert text[offset + |e|..] == text[offset..][|e|..] == EncodeAll(cs[1..]);
      EncodingsWalk(text, offset + |e|, cs[1..]);
      StepWalks(text, offset, cs[0]);
    }
  }

  /** The walkable texts are exactly the encodings of sequences of scalar values. */
  lemma WalksExactlyEncodings(text: bytes)
    ensures Walks(text, 0) <==> exists cs: seq<nat> :: Scalars(cs) && text == EncodeAll(cs)
  {
    assert text[0..] == text;
    if Walks(text, 0) {
      var cs := WalkYieldsScalars(text, 0);
    }
    forall cs: seq<nat> | Scalars(cs) && text == EncodeAll(cs) ensures Walks(text, 0) {
      EncodingsWalk(text, 0, cs);
    }
  }
}
