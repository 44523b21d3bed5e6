/**
 * Length-prefixed frames: a four-byte big-endian length and that many bytes. The receiver is given
 * the stream in arbitrary reads and dispatches each payload as soon as it is complete.
 */
module Framing {
  import opened Bytes

  const MAX_FRAME := 1_048_576
  const READ_SIZE := 8192
  const TWO32 := 0x1_0000_0000

  function Header(length: nat): (r: bytes) {
    var n := length % TWO32;
    [n / 0x100_0000, n / 0x1_0000 % 0x100, n / 0x100 % 0x100, n % 0x100]
  }

  function DecodeLength(b: bytes): (r: nat)
    requires |b| >= 4
  {
    (b[0] as int) * 0x100_0000 + (b[1] as int) * 0x1_0000 + (b[2] as int) * 0x100 + b[3]
  }

  lemma DigitsOf(a: nat, b: nat, c: nat, d: nat)
    requires a < 0x100 && b < 0x100 && c < 0x100 && d < 0x100
    ensures var n := ((a * 0x100 + b) * 0x100 + c) * 0x100 + d;
            n / 0x100_0000 == a && n / 0x1_0000 % 0x100 == b && n / 0x100 % 0x100 == c && n % 0x100 == d && n < TWO32
  {
    var ab := a * 0x100 + b;
    var abc := ab * 0x100 + c;
    var n := abc * 0x100 + d;
    assert n / 0x100 == abc && n % 0x100 == d;
    assert n / 0x1_0000 == ab && abc % 0x100 == c && ab % 0x100 == b;
  }

  lemma HeaderOfLength(b: bytes)
    requires |b| == 4
    ensures DecodeLength(b) < TWO32 && Header(DecodeLength(b)) == b
  {
    DigitsOf(b[0], b[1], b[2], b[3]);
    assert DecodeLength(b) == ((b[0] as int * 0x100 + b[1]) * 0x100 + b[2]) * 0x100 + b[3];
    assert DecodeLength(b) % TWO32 == DecodeLength(b);
  }

  lemma LengthOfHeader(length: nat)
    ensures DecodeLength(Header(length)) == length % TWO32
  {
    var n := length % TWO32;
    var x, y, z := n / 0x100, n / 0x1_0000, n / 0x100_0000;
    assert x == y * 0x100 + x % 0x100 && y == z * 0x100 + y % 0x100 && n == x * 0x100 + n % 0x100;
  }

  function Frame(payload: bytes): (r: bytes) { Header(|payload|) + payload }

  method EncodeFrame(payload: bytes) returns (output: bytes)
    ensures output == Frame(payload)
    ensures |payload| < TWO32
            ==> |output| == 4 + |payload| && DecodeLength(output) == |payload| && output[4..] == payload
  {
    LengthOfHeader(|payload|);
    var length := |payload| % TWO32;
    output := [length / 0x100_0000 % 0x100, length / 0x1_0000 % 0x100, length / 0x100 % 0x100, length % 0x100];
    assert output == Header(|payload|);
    output := output + payload;
    assert output[..4] == Header(|payload|);
  }

  predicate Framed(payload: bytes) { 1 <= |payload| <= MAX_FRAME }

  function Frames(payloads: seq<bytes>): (r: bytes) {
    if payloads == [] then [] else Frame(payloads[0]) + Frames(payloads[1..])
  }

  // ----- parsing a stream held whole -----

  /** Whether the receiver goes on after a payload may depend on everything dispatched before it. */
  type Accept = seq<bytes> -> bool

  datatype Parsed = Parsed(payloads: seq<bytes>, rest: bytes, ok: bool)

  predicate BadHeader(stream: bytes) {
    |stream| >= 4 && (DecodeLength(stream) == 0 || DecodeLength(stream) > MAX_FRAME)
  }

  /** A stream that ends before its first frame does. */
  predicate Partial(stream: bytes) { !BadHeader(stream) && (|stream| < 4 || |stream| < 4 + DecodeLength(stream)) }

  function Parse(accept: Accept, before: seq<bytes>, stream: bytes): (r: Parsed)
    decreases |stream|
  {
    if Partial(stream) then Parsed(before, stream, true)
    else if BadHeader(stream) then Parsed(before, stream, false)
    else
      var end := 4 + DecodeLength(stream);
      var dispatched := before + [stream[4..end]];
      if !accept(dispatched) then Parsed(dispatched, stream, false) else Parse(accept, dispatched, stream[end..])
  }

  /** The stream consumed is the frames of the payloads dispatched, whatever stopped the parse. */
  ghost predicate Split(accept: Accept, before: seq<bytes>, stream: bytes, payloads: seq<bytes>, rest: bytes) {
    && stream == Frames(payloads) + rest && (forall i | 0 <= i < |payloads| :: Framed(payloads[i]))
    && forall i | 0 < i <= |payloads| :: accept(before + payloads[..i])
  }

  lemma FrameAt(stream: bytes)
    requires !Partial(stream) && !BadHeader(stream)
    ensures var end := 4 + DecodeLength(stream);
            end <= |stream| && Framed(stream[4..end]) && stream == Frame(stream[4..end]) + stream[end..]
  {
    HeaderOfLength(stream[..4]);
    assert DecodeLength(stream[..4]) == DecodeLength(stream);
    var end := 4 + DecodeLength(stream);
    assert stream == stream[..4] + stream[4..end] + stream[end..];
  }

  lemma FrameFirst(payload: bytes, more: bytes)
    requires Framed(payload)
    ensures var s := Frame(payload) + more;
            !Partial(s) && !BadHeader(s) && DecodeLength(s) == |payload| && s[4..4 + |payload|] == payload
                && s[4 + |payload|..] == more
  {
    var s := Frame(payload) + more;
    LengthOfHeader(|payload|);
    assert s[..4] == Header(|payload|);
    assert DecodeLength(s) == DecodeLength(s[..4]);
  }

  lemma {:induction false} SplitParses(accept: Accept, before: seq<bytes>, payloads: seq<bytes>, rest: bytes)
    requires Split(accept, before, Frames(payloads) + rest, payloads, rest) && Partial(rest)
    ensures Parse(accept, before, Frames(payloads) + rest) == Parsed(before + payloads, rest, true)
    decreases |payloads|
  {
    hide Partial, Frame, BadHeader;
    if payloads == [] {
      assert Frames(payloads) + rest == rest && before + payloads == before;
    } else {
      var tail := payloads[1..];
      var stream := Frames(payloads) + rest;
      assert stream == Frame(payloads[0]) + (Frames(tail) + rest);
      FrameFirst(payloads[0], Frames(tail) + rest);
      var dispatched := before + [payloads[0]];
      assert payloads[..1] == [payloads[0]];
      forall i | 0 < i <= |tail| ensures accept(dispatched + tail[..i]) {
        assert before + payloads[..i + 1] == dispatched + tail[..i];
      }
      SplitParses(accept, dispatched, tail, rest);
      assert dispatched + tail == before + payloads;
    }
  }

  lemma SplitOne(accept: Accept, before: seq<bytes>, stream: bytes, tail: seq<bytes>, rest: bytes)
    requires !Partial(stream) && !BadHeader(stream)
    requires var end := 4 + DecodeLength(stream);
             var dispatched := before + [stream[4..end]];
             accept(dispatched) && Split(accept, dispatched, stream[end..], tail, rest)
    ensures Split(accept, before, stream, [stream[4..4 + DecodeLength(stream)]] + tail, rest)
  {
    hide Frame, DecodeLength, Partial, BadHeader;
    FrameAt(stream);
    var end := 4 + DecodeLength(stream);
    var dispatched := before + [stream[4..end]];
    var payloads := [stream[4..end]] + tail;
    assert payloads[1..] == tail;
    assert Frame(stream[4..end]) + (Frames(tail) + rest) == (Frame(stream[4..end]) + Frames(tail)) + rest;
    forall i | 0 < i <= |payloads| ensures accept(before + payloads[..i]) {
      assert before + payloads[..i] == dispatched + tail[..i - 1];
    }
  }

  lemma {:induction false} ParseSplits(accept: Accept, before: seq<bytes>, stream: bytes) returns (payloads: seq<bytes>)
    requires Parse(accept, before, stream).ok
    ensures var r := Parse(accept, before, stream);
            r.payloads == before + payloads && Split(accept, before, stream, payloads, r.rest) && Partial(r.rest)
    decreases |stream|
  {
    hide Frame, DecodeLength, BadHeader;
    if Partial(stream) {
      payloads := [];
      assert before + payloads == before && Frames([]) + stream == stream;
    } else {
      hide Split, Partial;
      var end := 4 + DecodeLength(stream);
      FrameAt(stream);
      var dispatched := before + [stream[4..end]];
      var tail := ParseSplits(accept, dispatched, stream[end..]);
      payloads := [stream[4..end]] + tail;
      assert dispatched + tail == before + payloads;
      SplitOne(accept, before, stream, tail, Parse(accept, before, stream).rest);
    }
  }

  /**
   * What a parse means: it succeeds with some payloads exactly when the stream is their frames, each
   * of an allowed length and accepted in turn, followed by less than one frame.
   */
  lemma ParseExactly(accept: Accept, stream: bytes, payloads: seq<bytes>, rest: bytes)
    ensures Parse(accept, [], stream) == Parsed(payloads, rest, true)
       <==> Split(accept, [], stream, payloads, rest) && Partial(rest)
  {
    hide Partial, Frames;
    if Split(accept, [], stream, payloads, rest) && Partial(rest) {
      SplitParses(accept, [], payloads, rest);
      assert [] + payloads == payloads;
    }
    if Parse(accept, [], stream) == Parsed(payloads, rest, true) {
      var found := ParseSplits(accept, [], stream);
      assert [] + found == found;
    }
  }

  function AcceptAll(): (r: Accept) { _ => true }

  lemma NoFrames()
    ensures Frames([]) == []
  {
  }

  lemma {:induction false} FramesSnoc(payloads: seq<bytes>, payload: bytes)
    ensures Frames(payloads + [payload]) == Frames(payloads) + Frame(payload)
    decreases |payloads|
  {
    hide Frame;
    if payloads == [] {
      assert [payload][1..] == [];
      assert payloads + [payload] == [payload];
    } else {
      assert (payloads + [payload])[1..] == payloads[1..] + [payload];
      FramesSnoc(payloads[1..], payload);
    }
  }

  lemma NothingIsPartial()
    ensures Partial([])
  {
  }

  /** A frame that is not all there is not mistaken for anything else. */
  lemma PartOfFrame(payload: bytes, part: bytes)
    requires Framed(payload) && part <= Frame(payload) && part != Frame(payload)
    ensures Partial(part)
  {
    LengthOfHeader(|payload|);
    if |part| >= 4 {
      assert part[..4] == Header(|payload|);
      assert DecodeLength(part) == DecodeLength(part[..4]);
    }
  }

  /** A concatenation of encoded frames gives back its payloads, and nothing is left over. */
  lemma FramesRoundTrip(payloads: seq<bytes>)
    requires forall i | 0 <= i < |payloads| :: Framed(payloads[i])
    ensures Parse(AcceptAll(), [], Frames(payloads)) == Parsed(payloads, [], true)
  {
    assert Frames(payloads) + [] == Frames(payloads);
    ParseExactly(AcceptAll(), Frames(payloads), payloads, []);
  }

  // ----- the receiver's loop, one case at a time -----

  lemma DecodeFirst(buffer: bytes, offset: nat)
    requires offset + 4 <= |buffer|
    ensures DecodeLength(buffer[offset..offset + 4]) == DecodeLength(buffer[offset..])
  {
  }

  lemma SliceFrame(buffer: bytes, offset: nat, length: nat)
    requires offset + 4 + length <= |buffer|
    ensures buffer[offset..][4..4 + length] == buffer[offset + 4..offset + 4 + length]
    ensures buffer[offset..][4 + length..] == buffer[offset + 4 + length..]
  {
  }

  lemma ParsePauses(accept: Accept, before: seq<bytes>, stream: bytes)
    requires |stream| < 4 || (0 < DecodeLength(stream) <= MAX_FRAME && |stream| < 4 + DecodeLength(stream))
    ensures Parse(accept, before, stream) == Parsed(before, stream, true) && Partial(stream) && |stream| < MAX_FRAME + 4
  {
  }

  lemma ParseRefuses(accept: Accept, before: seq<bytes>, stream: bytes)
    requires |stream| >= 4 && (DecodeLength(stream) == 0 || DecodeLength(stream) > MAX_FRAME)
    ensures Parse(accept, before, stream) == Parsed(before, stream, false)
  {
  }

  lemma ParseAdvances(accept: Accept, before: seq<bytes>, stream: bytes)
    requires |stream| >= 4 && 0 < DecodeLength(stream) <= MAX_FRAME && 4 + DecodeLength(stream) <= |stream|
    ensures var end := 4 + DecodeLength(stream);
            var dispatched := before + [stream[4..end]];
            Parse(accept, before, stream)
            == if accept(dispatched) then Parse(accept, dispatched, stream[end..])
               else Parsed(dispatched, stream, false)
  {
    hide DecodeLength;
  }

  // ----- the same stream in pieces -----

  lemma AppendKeepsFirst(s: bytes, t: bytes)
    requires !Partial(s)
    ensures !Partial(s + t) && BadHeader(s + t) == BadHeader(s) && DecodeLength(s + t) == DecodeLength(s)
    ensures !BadHeader(s) ==> var end := 4 + DecodeLength(s);
              end <= |s| && (s + t)[4..end] == s[4..end] && (s + t)[end..] == s[end..] + t
  {
  }

  lemma {:induction false} ParseAppend(accept: Accept, before: seq<bytes>, s: bytes, t: bytes)
    ensures var first := Parse(accept, before, s);
            var whole := Parse(accept, before, s + t);
            if first.ok then whole == Parse(accept, first.payloads, first.rest + t)
            else whole == Parsed(first.payloads, first.rest + t, false)
    decreases |s|
  {
    hide Partial, BadHeader, DecodeLength;
    if !Partial(s) {
      AppendKeepsFirst(s, t);
      if !BadHeader(s) {
        var end := 4 + DecodeLength(s);
        ParseAppend(accept, before + [s[4..end]], s[end..], t);
      }
    }
  }

  /** The receiver's view after more reads; once it has failed it reads no more. */
  function Feed(accept: Accept, st: Parsed, chunks: seq<bytes>): (r: Parsed)
    decreases |chunks|
  {
    if chunks == [] || !st.ok then st
    else Feed(accept, Parse(accept, st.payloads, st.rest + chunks[0]), chunks[1..])
  }

  function Concat(chunks: seq<bytes>): (r: bytes) { if chunks == [] then [] else chunks[0] + Concat(chunks[1..]) }

  lemma {:induction false} FeedIsParse(accept: Accept, st: Parsed, chunks: seq<bytes>)
    requires st.ok && Parse(accept, st.payloads, st.rest) == st
    ensures var fed, whole := Feed(accept, st, chunks), Parse(accept, st.payloads, st.rest + Concat(chunks));
            fed.ok == whole.ok && fed.payloads == whole.payloads && (fed.ok ==> fed.rest == whole.rest)
    decreases |chunks|
  {
    hide Parse;
    if chunks == [] {
      assert st.rest + Concat(chunks) == st.rest;
    } else {
      var more := Concat(chunks[1..]);
      var next := Parse(accept, st.payloads, st.rest + chunks[0]);
      ParseAppend(accept, st.payloads, st.rest + chunks[0], more);
      assert st.rest + Concat(chunks) == (st.rest + chunks[0]) + more;
      if next.ok {
        Reparse(accept, st.payloads, st.rest + chunks[0]);
        FeedIsParse(accept, next, chunks[1..]);
      }
    }
  }

  lemma {:induction false} Reparse(accept: Accept, before: seq<bytes>, stream: bytes)
    requires Parse(accept, before, stream).ok
    ensures var r := Parse(accept, before, stream); Parse(accept, r.payloads, r.rest) == r && Partial(r.rest)
    decreases |stream|
  {
    if !Partial(stream) {
      var end := 4 + DecodeLength(stream);
      Reparse(accept, before + [stream[4..end]], stream[end..]);
    }
  }

  /** However a stream is cut into reads, what is dispatched, and whether the receiver goes on, is the same. */
  lemma ChunkIndependence(accept: Accept, one: seq<bytes>, other: seq<bytes>)
    requires Concat(one) == Concat(other)
    ensures var start := Parsed([], [], true);
            var a, b, whole := Feed(accept, start, one), Feed(accept, start, other), Parse(accept, [], Concat(one));
            && a.payloads == b.payloads == whole.payloads && a.ok == b.ok == whole.ok
            && (a.ok ==> a.rest == b.rest == whole.rest)
  {
    FeedIsParse(accept, Parsed([], [], true), one);
    FeedIsParse(accept, Parsed([], [], true), other);
    assert [] + Concat(one) == Concat(one);
  }

  // ----- the header as a number -----

  /** The number that bytes are, the highest first. */
  function BigEndian(s: bytes): (r: nat) { if s == [] then 0 else 0x100 * BigEndian(s[..|s| - 1]) + s[|s| - 1] }

  /** A frame begins with the length of its payload in network byte order. */
  lemma HeaderIsBigEndian(payload: bytes)
    requires |payload| < TWO32
    ensures |Frame(payload)| == 4 + |payload| && BigEndian(Frame(payload)[..4]) == |payload|
    ensures Frame(payload)[4..] == payload
  {
    var h := Header(|payload|);
    assert Frame(payload)[..4] == h;
    LengthOfHeader(|payload|);
    assert h[..3][..2] == h[..2] && h[..2][..1] == h[..1] && h[..1][..0] == [];
    assert BigEndian(h[..1]) == h[0];
    var a, b, c: int := h[0], h[1], h[2];
    assert BigEndian(h[..2]) == 0x100 * a + b;
    assert BigEndian(h[..3]) == 0x100 * (0x100 * a + b) + c;
  }
}

/** The receiving half of a peer. */
module FrameReceiver {
  import opened Bytes
  import opened Framing

  datatype ReadEnd = WouldBlock | PeerClosed | Failed

  class Receiver {
    const accept: Accept
    var buffer: bytes
    var offset: nat
    var dispatched: seq<bytes>

    ghost predicate Valid()
      reads this
    {
      offset <= |buffer| && Partial(buffer[offset..])
    }

    /** What is still to be read, and what has been dispatched. */
    ghost function View(ok: bool): (r: Parsed)
      requires offset <= |buffer|
      reads this
    {
      Parsed(dispatched, buffer[offset..], ok)
    }

    constructor (accept: Accept)
      ensures Valid() && View(true) == Parsed([], [], true) && this.accept == accept && Bounded()
    {
      this.accept := accept;
      buffer, offset, dispatched := [], 0, [];
    }

    method Dispatch(text: bytes) returns (ok: bool)
      modifies this`dispatched
      ensures dispatched == old(dispatched) + [text] && ok == accept(dispatched)
    {
      dispatched := dispatched + [text];
      ok := accept(dispatched);
    }

    method CompactReceive()
      requires offset <= |buffer|
      modifies this`buffer, this`offset
      ensures offset <= |buffer| && buffer[offset..] == old(buffer[offset..]) && offset < READ_SIZE
      ensures buffer[offset..] == [] ==> buffer == []
    {
      if offset == 0 {
        return;
      }
      if offset == |buffer| {
        buffer, offset := [], 0;
        return;
      }
      if offset < READ_SIZE {
        return;
      }
      buffer := buffer[offset..];
      offset := 0;
    }

    method ConsumeFrames() returns (ok: bool)
      requires offset <= |buffer|
      modifies this
      ensures offset <= |buffer| && View(ok) == Parse(accept, old(dispatched), old(buffer[offset..]))
      ensures ok ==> Valid() && Bounded()
    {
      hide Parse, DecodeLength, Partial, BadHeader;
      while true
        invariant offset <= |buffer|
        invariant Parse(accept, dispatched, buffer[offset..]) == Parse(accept, old(dispatched), old(buffer[offset..]))
        decreases |buffer| - offset
      {
        ghost var stream := buffer[offset..];
        var available := |buffer| - offset;
        if available < 4 {
          ParsePauses(accept, dispatched, stream);
          CompactReceive();
          return true;
        }
        var length := DecodeLength(buffer[offset..offset + 4]);
        DecodeFirst(buffer, offset);
        if length == 0 || length > MAX_FRAME {
          ParseRefuses(accept, dispatched, stream);
          return false;
        }
        if available < 4 + length {
          ParsePauses(accept, dispatched, stream);
          CompactReceive();
          return true;
        }
        var payload := buffer[offset + 4..offset + 4 + length];
        SliceFrame(buffer, offset, length);
        ParseAdvances(accept, dispatched, stream);
        var goOn := Dispatch(payload);
        if !goOn {
          return false;
        }
        offset := offset + 4 + length;
      }
    }

    /** The buffer holds less than one frame and less than one read of consumed bytes before it. */
    ghost predicate Bounded()
      reads this
    {
      |buffer| <= MAX_FRAME + 8194
    }

    /** One turn: reads until the socket has no more for now, is closed or fails. */
    method Receive(chunks: seq<bytes>, end: ReadEnd) returns (ok: bool)
      requires Valid() && Bounded() && forall i | 0 <= i < |chunks| :: 0 < |chunks[i]| <= READ_SIZE
      modifies this
      ensures offset <= |buffer| && (ok ==> Valid() && Bounded() && end == WouldBlock)
      ensures var fed := Feed(accept, old(View(true)), chunks);
              fed.payloads == dispatched && ok == (fed.ok && end == WouldBlock)
                  && (fed.ok ==> fed.rest == buffer[offset..])
    {
      var i := 0;
      while i < |chunks|
        invariant 0 <= i <= |chunks| && Valid() && Bounded()
        invariant Feed(accept, View(true), chunks[i..]) == Feed(accept, old(View(true)), chunks)
      {
        hide Parse;
        ghost var unread := buffer[offset..];
        buffer := buffer + chunks[i];
        assert buffer[offset..] == unread + chunks[i];
        ghost var more := chunks[i..];
        assert more[1..] == chunks[i + 1..];
        var consumed := ConsumeFrames();
        if !consumed {
          return false;
        }
        i := i + 1;
      }
      assert chunks[i..] == [];
      return end == WouldBlock;
    }
  }
}
