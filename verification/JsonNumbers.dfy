/** What the integers mean that the writer writes and the parser reports. */
module JsonNumbers {
  import opened Bytes
  import opened Sequences
  import opened JsonEvents
  import opened JsonGrammar
  import opened JsonReading
  import opened JsonWriting
  import opened JsonRoundTrip

  /** The value of a run of decimal digits. */
  function DigitsValue(s: bytes): (r: int) {
    if s == [] then 0 else 10 * DigitsValue(Init(s)) + (Last(s) - '0' as int)
  }

  /** The value of a token, which may begin with a minus sign. */
  function IntegerValue(token: bytes): (r: int) {
    if token != [] && token[0] == '-' as int then -DigitsValue(token[1..]) else DigitsValue(token)
  }

  lemma {:induction false} DigitsMean(n: nat)
    ensures DigitsValue(DecimalDigits(n)) == n
    ensures forall i | 0 <= i < |DecimalDigits(n)| :: '0' as int <= DecimalDigits(n)[i] <= '9' as int
    decreases n
  {
    if n >= 10 {
      DigitsMean(n / 10);
      Snoc(DecimalDigits(n / 10), 0x30 + n % 10);
    }
  }

  /** The decimal text of a number has that number's value. */
  lemma DecimalMeans(n: int)
    ensures IntegerValue(Decimal(n)) == n
  {
    hide DecimalDigits, DigitsValue;
    DigitsMean(if n < 0 then -n else n);
    if n < 0 {
      assert Decimal(n)[1..] == DecimalDigits(-n);
    } else {
      assert Decimal(n)[0] != '-' as int;
    }
  }

  /** A report says what a call meant: for a number, a token with its value. */
  predicate Reports(e: Event, call: Call) {
    match call
    case BeginObject => e.ObjectBegin?
    case EndObject => e.ObjectEnd?
    case BeginArray => e.ArrayBegin?
    case EndArray => e.ArrayEnd?
    case PutKey(text) => e == Key(text)
    case PutNull => e == Value(Null)
    case PutBoolean(b) => e == Value(Boolean(b))
    case PutInteger(n) => e.Value? && e.v.Integer? && IntegerValue(e.v.token) == n
    case PutString(text) => e == Value(Str(text))
  }

  lemma EventReports(call: Call)
    ensures Reports(EventOf(call), call)
  {
    hide Decimal, IntegerValue;
    if call.PutInteger? {
      DecimalMeans(call.n);
    }
  }

  /** The parser reports one event for each call of a complete run, and each says what its call meant. */
  lemma RoundTripReports(calls: seq<Call>)
    requires Complete(RunFrom(CLEARED, calls)) && MaxStack(CLEARED, calls) <= MAX_DEPTH
    requires forall k | 0 <= k < |calls| :: Writable(calls[k])
    ensures var read := Read(RunFrom(CLEARED, calls).output);
            && read.Good? && |Unlocated(read.value)| == |calls|
            && forall k | 0 <= k < |calls| :: Reports(Unlocated(read.value)[k], calls[k])
  {
    hide RunFrom, MaxStack, Writable, Read, Unlocated, EventOf, Reports;
    RoundTrip(calls);
    EventsOfAt(calls);
    forall k | 0 <= k < |calls| ensures Reports(EventOf(calls[k]), calls[k]) {
      EventReports(calls[k]);
    }
  }
}
