/** Unsigned numbers in little-endian bytes, as values and as they are written and read in place. */
module LittleEndian {
  import opened Bytes
  import opened Division

  function Power(width: nat): (p: nat)
    ensures p > 0
  {
    if width == 0 then 1 else 0x100 * Power(width - 1)
  }

  function Text(value: nat, width: nat): (s: bytes)
    ensures |s| == width
  {
    if width == 0 then [] else [value % 0x100] + Text(value / 0x100, width - 1)
  }

  function Value(s: bytes): (r: nat) { if s == [] then 0 else s[0] + 0x100 * Value(s[1..]) }

  lemma {:induction false} ValueOfText(value: nat, width: nat)
    requires value < Power(width)
    ensures Value(Text(value, width)) == value
    decreases width
  {
    if width > 0 {
      ValueOfText(value / 0x100, width - 1);
      assert Text(value, width)[1..] == Text(value / 0x100, width - 1);
    }
  }

  lemma DivideByte(low: byte, high: nat)
    ensures (low + 0x100 * high) % 0x100 == low && (low + 0x100 * high) / 0x100 == high
  {
  }

  lemma {:induction false} TextOfValue(s: bytes)
    ensures Value(s) < Power(|s|) && Text(Value(s), |s|) == s
    decreases |s|
  {
    if s != [] {
      TextOfValue(s[1..]);
      DivideByte(s[0], Value(s[1..]));
      assert s == [s[0]] + s[1..];
    }
  }

  lemma Widths()
    ensures Power(4) == 0x1_0000_0000 && Power(8) == 0x1_0000_0000_0000_0000
  {
    assert Power(1) == 0x100 && Power(2) == 0x1_0000 && Power(3) == 0x100_0000;
    assert Power(5) == 0x100_0000_0000 && Power(6) == 0x1_0000_0000_0000 && Power(7) == 0x100_0000_0000_0000;
  }

  lemma {:induction false} TextSnoc(value: nat, width: nat)
    ensures Text(value, width + 1) == Text(value, width) + [value / Power(width) % 0x100]
    decreases width
  {
    if width > 0 {
      TextSnoc(value / 0x100, width - 1);
      DivisionSplits(value, Power(width - 1));
      var more := [value / 0x100 / Power(width - 1) % 0x100];
      assert [value % 0x100] + (Text(value / 0x100, width - 1) + more)
             == ([value % 0x100] + Text(value / 0x100, width - 1)) + more;
    }
  }

  lemma DivisionSplits(value: nat, power: nat)
    requires power > 0
    ensures value / 0x100 / power == value / (0x100 * power)
  {
    var q := value / 0x100 / power;
    var low := value / 0x100 - q * power;
    assert value == 0x100 * (q * power + low) + value % 0x100;
    assert 0 <= low < power;
    assert value == q * (0x100 * power) + (0x100 * low + value % 0x100);
    DivisionUnique(value, 0x100 * power, q, 0x100 * low + value % 0x100);
  }

  lemma {:induction false} ValueSnoc(s: bytes, b: byte)
    ensures Value(s + [b]) == Value(s) + Power(|s|) * b
    decreases |s|
  {
    if s == [] {
      assert s + [b] == [b] && Value([b][1..]) == 0;
    } else {
      assert (s + [b])[1..] == s[1..] + [b];
      ValueSnoc(s[1..], b);
      assert 0x100 * (Power(|s| - 1) * b) == Power(|s|) * b;
    }
  }

  /** Writing stops short only when the span has no room. */
  method Write(output: array<byte>, offset: nat, value: nat, width: nat) returns (ok: bool, next: nat)
    modifies output
    ensures ok <==> offset + width <= output.Length
    ensures next == if ok then offset + width else offset
    ensures ok ==> output[..next] == old(output[..offset]) + Text(value, width)
    ensures forall k | 0 <= k < output.Length && !(offset <= k < next) :: output[k] == old(output[k])
  {
    if offset > output.Length || output.Length - offset < width {
      return false, offset;
    }
    var index: nat, shifted: nat, power: nat := 0, value, 1;
    while index < width
      invariant 0 <= index <= width
      invariant power == Power(index) && power > 0 && shifted == value / power
      invariant output[offset..offset + index] == Text(value, index)
      invariant forall k | 0 <= k < output.Length && !(offset <= k < offset + index) :: output[k] == old(output[k])
    {
      TextSnoc(value, index);
      DivideOnce(value, power);
      output[offset + index] := shifted % 0x100;
      assert output[offset..offset + index + 1] == output[offset..offset + index] + [shifted % 0x100];
      shifted := shifted / 0x100;
      power := 0x100 * power;
      index := index + 1;
    }
    assert output[..offset] == old(output[..offset]);
    assert output[..offset + width] == output[..offset] + output[offset..offset + width];
    return true, offset + width;
  }

  lemma DivideOnce(value: nat, power: nat)
    requires power > 0
    ensures value / power / 0x100 == value / (0x100 * power)
  {
    var high, rest := value / power, value % power;
    var q, low := high / 0x100, high % 0x100;
    assert value == high * power + rest && high == q * 0x100 + low;
    DigitBelow(power, low, rest);
    Regroup(q, low, power, rest);
    DivisionUnique(value, 0x100 * power, q, low * power + rest);
  }

  lemma DigitBelow(power: nat, low: nat, rest: nat)
    requires low < 0x100 && rest < power
    ensures 0 <= low * power + rest < 0x100 * power
  {
    assert low * power <= 0xFF * power;
  }

  lemma Regroup(q: nat, low: nat, power: nat, rest: nat)
    ensures (q * 0x100 + low) * power + rest == q * (0x100 * power) + (low * power + rest)
  {
    assert (q * 0x100 + low) * power == (q * 0x100) * power + low * power;
  }

  method Read(input: bytes, offset: nat, width: nat) returns (ok: bool, next: nat, value: nat)
    ensures ok <==> offset + width <= |input|
    ensures next == if ok then offset + width else offset
    ensures ok ==>
      value == Value(input[offset..next]) && value < Power(width) && input[offset..next] == Text(value, width)
  {
    value := 0;
    if offset > |input| || |input| - offset < width {
      return false, offset, 0;
    }
    var index: nat, power: nat := 0, 1;
    while index < width
      invariant 0 <= index <= width
      invariant power == Power(index) && value == Value(input[offset..offset + index])
    {
      ValueSnoc(input[offset..offset + index], input[offset + index]);
      assert input[offset..offset + index + 1] == input[offset..offset + index] + [input[offset + index]];
      value := value + power * input[offset + index];
      power := 0x100 * power;
      index := index + 1;
    }
    TextOfValue(input[offset..offset + width]);
    return true, offset + width, value;
  }

  /** The byte at a place is that digit of the number, the lowest first. */
  lemma {:induction false} DigitAt(value: nat, width: nat, k: nat)
    requires k < width
    ensures Text(value, width)[k] == value / Power(k) % 0x100
    decreases width
  {
    TextSnoc(value, width - 1);
    if k < width - 1 {
      DigitAt(value, width - 1, k);
    }
  }
}
