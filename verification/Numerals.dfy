/**
 The conversions of the system calls ReadInt and PrintInt (userprog/exception) between
 32-bit integers and decimal numerals. Arithmetic wraps around as two's complement.
 */
module Numerals {
  import opened Words
  import opened Multiplier

  const MINUS: byte := 45
  const ZERO: byte := 48
  const INT_MIN: int32 := -0x8000_0000

  predicate IsDigit(c: byte)
  {
    48 <= c <= 57
  }

  predicate AllDigits(s: seq<byte>)
  {
    forall i | 0 <= i < |s| :: IsDigit(s[i])
  }

  /** The number that digits stand for. */
  function Number(digits: seq<byte>): int
  {
    if digits == [] then 0
    else
      var n := |digits| - 1;
      var last: int := digits[n];
      Number(digits[..n]) * 10 + (last - 48)
  }

  // --------------------------------------------------------------- reading

  function Signed(input: seq<byte>): bool
  {
    input != [] && input[0] == MINUS
  }

  function Digits(input: seq<byte>): seq<byte>
  {
    if Signed(input) then input[1..] else input
  }

  /** An optional minus sign and at least one digit. */
  predicate IsNumeral(input: seq<byte>)
  {
    Digits(input) != [] && AllDigits(Digits(input))
  }

  function Value(input: seq<byte>): int
  {
    if Signed(input) then -Number(Digits(input)) else Number(Digits(input))
  }

  /** One more digit: wrapping around at every step is the same as wrapping around once. */
  lemma WrapStep(x: int, d: int)
    ensures Wrap(Wrap(x) * 10 + d) == Wrap(x * 10 + d)
  {
    var q := x / 0x1_0000_0000;
    var w: int := Wrap(x);
    assert x == 0x1_0000_0000 * q + x % 0x1_0000_0000;
    var k := if w < 0 then q + 1 else q;
    assert x == w + 0x1_0000_0000 * k;
    SameRemainder(w * 10 + d, 10 * k);
    assert x * 10 + d == (w * 10 + d) + 0x1_0000_0000 * (10 * k);
  }

  lemma SameRemainder(y: int, k: int)
    ensures (y + 0x1_0000_0000 * k) % 0x1_0000_0000 == y % 0x1_0000_0000
  {
    var q, r := y / 0x1_0000_0000, y % 0x1_0000_0000;
    assert y + 0x1_0000_0000 * k == 0x1_0000_0000 * (q + k) + r;
  }

  lemma WrapNegated(x: int)
    ensures Negated(Wrap(x)) == Wrap(-x)
  {
    var q := x / 0x1_0000_0000;
    var w: int := Wrap(x);
    assert x == 0x1_0000_0000 * q + x % 0x1_0000_0000;
    var k := if w < 0 then q + 1 else q;
    assert x == w + 0x1_0000_0000 * k;
    SameRemainder(-w, -k);
    assert -x == -w + 0x1_0000_0000 * (-k);
  }

  /** What register 2 is given: nothing for an empty line, zero for a line that is no numeral. */
  datatype Answer = Nothing | Register(value: int32)

  /** `bytesRead` is the console's answer: the length of the line, or -1 at the end of the stream. */
  method ReadInt(buffer: seq<byte>, bytesRead: int) returns (answer: Answer)
    requires bytesRead == |buffer| || bytesRead == -1
    ensures answer == if bytesRead <= 0 then Nothing
                      else if IsNumeral(buffer) then Register(Wrap(Value(buffer))) else Register(0)
  {
    if bytesRead <= 0 {
      return Nothing;
    }
    var negative, start, result := false, 0, 0;
    if buffer[0] == MINUS {
      negative, start := true, 1;
    }
    ghost var digits := Digits(buffer);
    var i := start;
    var isValid := true;
    assert digits[..0] == [];
    while i < |buffer|
      invariant start <= i <= |buffer| && isValid
      invariant AllDigits(digits[..i - start]) && result == Wrap(Number(digits[..i - start]))
    {
      assert buffer[i] == digits[i - start];
      if IsDigit(buffer[i]) {
        var c: int := buffer[i];
        WrapStep(Number(digits[..i - start]), c - 48);
        result := Wrap(result * 10 + (c - 48));
        assert digits[..i + 1 - start][..i - start] == digits[..i - start];
      } else {
        isValid := false;
        break;
      }
      i := i + 1;
    }
    if isValid {
      assert digits[..|digits|] == digits;
    }
    if |buffer| == 1 && negative {
      isValid := false;
    }
    if isValid {
      if negative {
        WrapNegated(Number(digits));
        result := Negated(result);
      }
      return Register(result);
    }
    return Register(0);
  }

  // -------------------------------------------------------------- printing

  /** The digits of a positive number, without leading zeros. */
  function Decimal(n: nat): seq<byte>
  {
    if n == 0 then [] else Decimal(n / 10) + [48 + n % 10]
  }

  lemma {:induction false} NumberOfDecimal(n: nat)
    ensures AllDigits(Decimal(n)) && Number(Decimal(n)) == n && (n > 0 ==> Decimal(n) != [] && Decimal(n)[0] != ZERO)
  {
    if n > 0 {
      NumberOfDecimal(n / 10);
      assert Decimal(n)[..|Decimal(n)| - 1] == Decimal(n / 10);
    }
  }

  function Pow10(k: nat): nat
  {
    if k == 0 then 1 else 10 * Pow10(k - 1)
  }

  lemma {:induction false} DecimalLength(n: nat, k: nat)
    requires n < Pow10(k)
    ensures |Decimal(n)| <= k
  {
    if n > 0 {
      DecimalLength(n / 10, k - 1);
    }
  }

  lemma TenDigits(n: nat)
    requires n < 0x8000_0000
    ensures |Decimal(n)| <= 10
  {
    assert Pow10(5) == 100_000;
    assert Pow10(10) == 10_000_000_000;
    DecimalLength(n, 10);
  }

  /** What PrintInt sends to the console: the digits are followed by the string's NUL, except for zero. */
  function Printed(number: int32): seq<byte>
  {
    if number == 0 then [ZERO]
    else if number == INT_MIN then [MINUS, 0]
    else if number < 0 then [MINUS] + Decimal(-(number as int)) + [0]
    else Decimal(number) + [0]
  }

  /** The digits that the loops find: none for a number that is not positive. */
  function DigitsOf(n: int): seq<byte>
  {
    if n > 0 then Decimal(n) else []
  }

  lemma DigitsStep(n: int)
    requires n > 0
    ensures DigitsOf(n) == DigitsOf(n / 10) + [48 + n % 10]
  {
  }

  lemma PrintedParts(n: int32)
    requires n != 0
    ensures Printed(n) == (if n < 0 then [MINUS] else []) + DigitsOf(if n < 0 then Negated(n) else n) + [0]
    ensures |DigitsOf(if n < 0 then Negated(n) else n)| <= 10
  {
    if n < 0 {
      NegatedIsAbsolute(n);
    }
    if n != INT_MIN {
      TenDigits(if n < 0 then Negated(n) else n);
    }
  }

  method CountDigits(number: int32) returns (length: nat)
    ensures length == |DigitsOf(number)|
  {
    length := 0;
    var temp: int := number;
    while temp > 0
      invariant length + |DigitsOf(temp)| == |DigitsOf(number)|
    {
      DigitsStep(temp);
      length := length + 1;
      temp := temp / 10;
    }
  }

  method FillDigits(buffer: array<byte>, number: int32, length: nat)
    requires length == |DigitsOf(number)| < buffer.Length
    modifies buffer
    ensures buffer[..length] == DigitsOf(number)
  {
    var rest: int := number;
    for i := length downto 0
      invariant |DigitsOf(rest)| == i && DigitsOf(rest) + buffer[i..length] == DigitsOf(number)
    {
      var digit: byte := 48 + rest % 10;
      DigitsStep(rest);
      Reassociated(DigitsOf(rest / 10), digit, buffer[i + 1..length]);
      PutDigit(buffer, i, digit, length);
      rest := rest / 10;
    }
  }

  lemma Reassociated(front: seq<byte>, digit: byte, tail: seq<byte>)
    ensures front + [digit] + tail == front + ([digit] + tail)
  {
  }

  method PutDigit(buffer: array<byte>, i: nat, digit: byte, length: nat)
    requires i < length <= buffer.Length
    modifies buffer
    ensures buffer[i..length] == [digit] + old(buffer[i + 1..length])
  {
    buffer[i] := digit;
  }

  method PrintInt(register4: int32) returns (out: seq<byte>)
    ensures out == Printed(register4)
  {
    var number := register4;
    var buffer := new byte[256];
    if number == 0 {
      return [ZERO];
    }
    PrintedParts(number);
    out := [];
    if number < 0 {
      number := Negated(number);
      out := out + [MINUS];
    }
    var length := CountDigits(number);
    FillDigits(buffer, number, length);
    buffer[length] := 0;
    assert buffer[..length + 1] == buffer[..length] + [0];
    out := out + buffer[..length + 1];
  }

  // ------------------------------------------------------------ round trip

  /** A numeral as it comes back from a terminal: without the NUL. */
  function WithoutNul(out: seq<byte>): seq<byte>
  {
    if out != [] && out[|out| - 1] == 0 then out[..|out| - 1] else out
  }

  /** Reading what was printed gives the number back exactly if it is not the most negative one. */
  lemma RoundTrip(n: int32)
    ensures var line := WithoutNul(Printed(n));
            && (n != INT_MIN ==> IsNumeral(line) && Value(line) == n)
            && (n == INT_MIN ==> line == [MINUS] && !IsNumeral(line))
  {
    var line := WithoutNul(Printed(n));
    if n == 0 {
      assert line == [ZERO] && line[..0] == [];
      assert Number(line) == Number(line[..0]) * 10;
    } else if n == INT_MIN {
      assert line == [MINUS];
    } else if n < 0 {
      NumberOfDecimal(-(n as int));
      assert line == [MINUS] + Decimal(-(n as int));
      assert line[1..] == Decimal(-(n as int));
    } else {
      NumberOfDecimal(n);
      assert line == Decimal(n);
    }
  }

  /** The whole way there and back, as the two system calls run. */
  method PrintThenRead(n: int32) returns (answer: Answer)
    ensures answer == Register(n) <==> n != INT_MIN
    ensures n == INT_MIN ==> answer == Register(0)
  {
    var out := PrintInt(n);
    RoundTrip(n);
    answer := ReadInt(WithoutNul(out), |WithoutNul(out)|);
  }

  lemma {:induction false} PrefixAtMost(digits: seq<byte>, i: nat)
    requires AllDigits(digits) && i <= |digits|
    ensures 0 <= Number(digits[..i]) <= Number(digits)
  {
    if i == |digits| {
      assert digits[..i] == digits;
      if i > 0 {
        PrefixAtMost(digits[..i - 1], i - 1);
        assert digits[..i - 1][..i - 1] == digits[..i - 1];
      }
    } else {
      var n := |digits| - 1;
      PrefixAtMost(digits[..n], i);
      assert digits[..n][..i] == digits[..i];
    }
  }

  /** No step of reading back a printed number overflows. */
  lemma NoOverflow(n: int32, i: nat)
    requires n != INT_MIN && i <= |Digits(WithoutNul(Printed(n)))|
    ensures 0 <= Number(Digits(WithoutNul(Printed(n)))[..i]) < 0x8000_0000
  {
    RoundTrip(n);
    PrefixAtMost(Digits(WithoutNul(Printed(n))), i);
  }
}
