/** Digit strings as java.lang.Integer reads and writes them:
    `Integer.parseInt(s, radix)`, `Integer.toHexString(i)` and
    `String.format("%04X", i)`. Only ASCII digits and letters are digits here. */
module Numerals {
  import opened JavaTypes

  /** `Character.digit(c, radix)` on ASCII: the digit's value, or -1. */
  function Digit(c: char, radix: nat): (d: int)
    requires 2 <= radix <= 36
    ensures -1 <= d < radix
  {
    var v :=
      if '0' <= c <= '9' then c as int - '0' as int
      else if 'a' <= c <= 'z' then c as int - 'a' as int + 10
      else if 'A' <= c <= 'Z' then c as int - 'A' as int + 10
      else -1;
    if v < radix then v else -1
  }

  predicate AllDigits(s: string, radix: nat)
    requires 2 <= radix <= 36
  {
    forall i :: 0 <= i < |s| ==> Digit(s[i], radix) >= 0
  }

  /** The value of a digit string, most significant digit first. */
  function DigitsValue(s: string, radix: nat): (v: nat)
    requires 2 <= radix <= 36 && AllDigits(s, radix)
    decreases |s|
  {
    if s == [] then 0
    else
      var high := DigitsValue(s[..|s| - 1], radix);
      var d := Digit(s[|s| - 1], radix);
      assert d >= 0;
      MulNonnegative(high, radix);
      high * radix + d
  }

  lemma MulNonnegative(a: nat, b: nat)
    ensures a * b >= 0
  {
  }

  /** `Integer.parseInt(s, radix)`: an optional sign, then at least one digit,
      and a value that fits a Java int; anything else is a NumberFormatException. */
  function ParseInt(s: string, radix: nat): (r: Option<JInt>)
    requires 2 <= radix <= 36
  {
    if s == [] then None
    else
      var signed := s[0] == '-' || s[0] == '+';
      var body := if signed then s[1..] else s;
      if body == [] || !AllDigits(body, radix) then None
      else
        var v: int := if s[0] == '-' then -(DigitsValue(body, radix) as int) else DigitsValue(body, radix);
        if -0x8000_0000 <= v < 0x8000_0000 then Some(v) else None
  }

  /** The character for digit `d`, in upper or lower case. */
  function DigitChar(d: nat, upper: bool): (c: char)
    requires d < 36
    ensures Digit(c, 36) == d
  {
    if d < 10 then ('0' as int + d) as char
    else if upper then ('A' as int + d - 10) as char
    else ('a' as int + d - 10) as char
  }

  /** The shortest hex digit string of `n` ("0" for zero), as `Integer.toHexString`
      and `%X` write a non-negative value. */
  function HexDigits(n: nat, upper: bool): (s: string)
    ensures |s| >= 1
    decreases n
  {
    if n < 16 then [DigitChar(n, upper)]
    else HexDigits(n / 16, upper) + [DigitChar(n % 16, upper)]
  }

  /** `Integer.toHexString(i)`: the unsigned 32-bit value in lower-case hex. */
  function ToHexString(i: int): (s: string)
  {
    HexDigits(i % 0x1_0000_0000, false)
  }

  /** Left-pads `s` with '0' up to `width` characters. */
  function PadZeros(s: string, width: nat): (r: string)
    ensures |r| == if |s| >= width then |s| else width
    ensures r[|r| - |s|..] == s
  {
    if |s| >= width then s else seq(width - |s|, _ => '0') + s
  }

  /** `String.format("%04X", v)`: the int's unsigned 32-bit value in upper-case
      hex, zero-padded to at least four digits. */
  function Format04X(v: JInt): (s: string)
  {
    PadZeros(HexDigits(v % 0x1_0000_0000, true), 4)
  }

  /** The upper-case spelling of a digit character. */
  function UpperDigit(c: char): (u: char)
  {
    if 'a' <= c <= 'z' then (c as int - 'a' as int + 'A' as int) as char else c
  }

  function UpperHex(s: string): (u: string)
    ensures |u| == |s|
    ensures forall i :: 0 <= i < |s| ==> u[i] == UpperDigit(s[i])
  {
    seq(|s|, i requires 0 <= i < |s| => UpperDigit(s[i]))
  }

  lemma DigitOfDigitChar(d: nat, upper: bool, radix: nat)
    requires d < radix && 2 <= radix <= 36
    ensures Digit(DigitChar(d, upper), radix) == d
  {
  }

  lemma {:induction false} AllDigitsOfHexDigits(n: nat, upper: bool)
    ensures AllDigits(HexDigits(n, upper), 16)
    decreases n
  {
    if n >= 16 {
      AllDigitsOfHexDigits(n / 16, upper);
      var s := HexDigits(n, upper);
      var p := HexDigits(n / 16, upper);
      assert s == p + [DigitChar(n % 16, upper)];
      forall i | 0 <= i < |s| ensures Digit(s[i], 16) >= 0 {
        if i < |p| { assert s[i] == p[i]; } else { DigitOfDigitChar(n % 16, upper, 16); }
      }
    } else {
      DigitOfDigitChar(n, upper, 16);
    }
  }

  /** Writing a number in hex digits and reading them back gives the number. */
  lemma {:induction false} DigitsValueOfHexDigits(n: nat, upper: bool)
    ensures AllDigits(HexDigits(n, upper), 16)
    ensures DigitsValue(HexDigits(n, upper), 16) == n
    decreases n
  {
    AllDigitsOfHexDigits(n, upper);
    var s := HexDigits(n, upper);
    if n < 16 {
      DigitOfDigitChar(n, upper, 16);
      assert s[..|s| - 1] == [];
    } else {
      DigitsValueOfHexDigits(n / 16, upper);
      var p := HexDigits(n / 16, upper);
      assert s[..|s| - 1] == p;
      DigitOfDigitChar(n % 16, upper, 16);
      assert DigitsValue(s, 16) == DigitsValue(p, 16) * 16 + n % 16;
    }
  }

  /** `Integer.toHexString` loses nothing of the int's 32 bits. */
  lemma HexStringRoundTrip(i: int)
    ensures AllDigits(ToHexString(i), 16)
    ensures DigitsValue(ToHexString(i), 16) == i % 0x1_0000_0000
  {
    DigitsValueOfHexDigits(i % 0x1_0000_0000, false);
  }

  /** The four hex digits of a 16-bit value, most significant first. */
  function Hex4Digits(v: nat): (s: string)
    requires v < 0x1_0000
  {
    [DigitChar(v / 0x1000, true), DigitChar(v / 0x100 % 16, true),
     DigitChar(v / 0x10 % 16, true), DigitChar(v % 16, true)]
  }

  lemma ModSmall(v: nat, m: nat)
    requires v < m
    ensures v % m == v
  {
  }

  lemma HexDigits2(v: nat)
    requires 16 <= v < 0x100
    ensures HexDigits(v, true) == [DigitChar(v / 16, true), DigitChar(v % 16, true)]
  {
    assert HexDigits(v / 16, true) == [DigitChar(v / 16, true)];
  }

  lemma HexDigits3(v: nat)
    requires 0x100 <= v < 0x1000
    ensures HexDigits(v, true)
      == [DigitChar(v / 0x100, true), DigitChar(v / 16 % 16, true), DigitChar(v % 16, true)]
  {
    HexDigits2(v / 16);
    assert v / 16 / 16 == v / 0x100;
  }

  lemma HexDigits4(v: nat)
    requires 0x1000 <= v < 0x1_0000
    ensures HexDigits(v, true) == Hex4Digits(v)
  {
    HexDigits3(v / 16);
    assert v / 16 / 0x100 == v / 0x1000 && v / 16 / 16 % 16 == v / 0x100 % 16;
  }

  lemma Pad1(v: nat)
    requires v < 16
    ensures PadZeros(HexDigits(v, true), 4) == Hex4Digits(v)
  {
    var h := HexDigits(v, true);
    assert h == [DigitChar(v, true)];
    assert PadZeros(h, 4) == ['0', '0', '0'] + h;
    assert v / 0x1000 == 0 && v / 0x100 % 16 == 0 && v / 16 % 16 == 0 && v % 16 == v;
    assert DigitChar(0, true) == '0';
  }

  lemma Pad2(v: nat)
    requires 16 <= v < 0x100
    ensures PadZeros(HexDigits(v, true), 4) == Hex4Digits(v)
  {
    HexDigits2(v);
    var h := HexDigits(v, true);
    assert PadZeros(h, 4) == ['0', '0'] + h;
    var q := v / 16;
    assert q < 16;
    ModSmall(q, 16);
    assert v / 0x1000 == 0 && v / 0x100 == 0;
    assert DigitChar(0, true) == '0';
  }

  lemma Pad3(v: nat)
    requires 0x100 <= v < 0x1000
    ensures PadZeros(HexDigits(v, true), 4) == Hex4Digits(v)
  {
    HexDigits3(v);
    var h := HexDigits(v, true);
    assert PadZeros(h, 4) == ['0'] + h;
    var q := v / 0x100;
    assert q < 16;
    ModSmall(q, 16);
    assert v / 0x1000 == 0;
    assert DigitChar(0, true) == '0';
  }

  /** `%04X` of a 16-bit value is exactly its four upper-case hex digits. */
  lemma Format04XOf16Bit(v: nat)
    requires v < 0x1_0000
    ensures Format04X(v) == Hex4Digits(v)
  {
    assert v % 0x1_0000_0000 == v;
    if v < 16 {
      Pad1(v);
    } else if v < 0x100 {
      Pad2(v);
    } else if v < 0x1000 {
      Pad3(v);
    } else {
      HexDigits4(v);
    }
  }

  /** `%04X` always gives four characters to a 16-bit value, and more to larger ones. */
  lemma {:induction false} Format04XWidth(v: JInt)
    ensures |Format04X(v)| == 4 <==> 0 <= v < 0x1_0000
  {
    var u := v % 0x1_0000_0000;
    if 0 <= v < 0x1_0000 {
      Format04XOf16Bit(v);
    } else {
      assert u >= 0x1_0000;
      assert u / 16 / 16 == u / 256 && u / 256 / 16 == u / 4096 && u / 4096 / 16 == u / 0x1_0000;
      assert |HexDigits(u, true)| == |HexDigits(u / 16, true)| + 1;
      assert |HexDigits(u / 16, true)| == |HexDigits(u / 256, true)| + 1;
      assert |HexDigits(u / 256, true)| == |HexDigits(u / 4096, true)| + 1;
      assert |HexDigits(u / 4096, true)| == |HexDigits(u / 0x1_0000, true)| + 1;
    }
  }

  lemma HexSplit(v: nat, d0: nat, d1: nat, d2: nat, d3: nat)
    requires d0 < 16 && d1 < 16 && d2 < 16 && d3 < 16
    requires v == ((d0 * 16 + d1) * 16 + d2) * 16 + d3
    ensures v < 0x1_0000
    ensures Hex4Digits(v) == [DigitChar(d0, true), DigitChar(d1, true), DigitChar(d2, true), DigitChar(d3, true)]
  {
    assert v / 0x1000 == d0 && v / 0x100 % 16 == d1 && v / 0x10 % 16 == d2 && v % 16 == d3;
  }

  lemma Hex4Value(h: string)
    requires |h| == 4 && AllDigits(h, 16)
    ensures DigitsValue(h, 16)
      == ((Digit(h[0], 16) * 16 + Digit(h[1], 16)) * 16 + Digit(h[2], 16)) * 16 + Digit(h[3], 16)
  {
    var p1, p2, p3 := h[..1], h[..2], h[..3];
    assert p1[..0] == [] && p2[..1] == p1 && p3[..2] == p2 && h[..3] == p3;
    assert DigitsValue(p1, 16) == Digit(h[0], 16);
    assert DigitsValue(p2, 16) == Digit(h[0], 16) * 16 + Digit(h[1], 16);
    assert DigitsValue(p3, 16) == (Digit(h[0], 16) * 16 + Digit(h[1], 16)) * 16 + Digit(h[2], 16);
  }

  /** The value of four hex digits has exactly those four digits. */
  lemma Hex4DigitsOfValue(h: string)
    requires |h| == 4 && AllDigits(h, 16)
    ensures DigitsValue(h, 16) < 0x1_0000
    ensures Hex4Digits(DigitsValue(h, 16))
      == [DigitChar(Digit(h[0], 16), true), DigitChar(Digit(h[1], 16), true),
          DigitChar(Digit(h[2], 16), true), DigitChar(Digit(h[3], 16), true)]
  {
    Hex4Value(h);
    HexSplit(DigitsValue(h, 16), Digit(h[0], 16), Digit(h[1], 16), Digit(h[2], 16), Digit(h[3], 16));
  }

  lemma UpperHex4(h: string)
    requires |h| == 4 && AllDigits(h, 16)
    ensures UpperHex(h)
      == [DigitChar(Digit(h[0], 16), true), DigitChar(Digit(h[1], 16), true),
          DigitChar(Digit(h[2], 16), true), DigitChar(Digit(h[3], 16), true)]
  {
    UpperOfDigit(h[0]);
    UpperOfDigit(h[1]);
    UpperOfDigit(h[2]);
    UpperOfDigit(h[3]);
  }

  /** Four hex digits read as a number, written back with `%04X`, are the same
      digits in upper case. */
  lemma Hex4RoundTrip(h: string)
    requires |h| == 4 && AllDigits(h, 16)
    ensures DigitsValue(h, 16) < 0x1_0000
    ensures Format04X(DigitsValue(h, 16)) == UpperHex(h)
  {
    Hex4DigitsOfValue(h);
    Format04XOf16Bit(DigitsValue(h, 16));
    UpperHex4(h);
  }

  lemma UpperOfDigit(c: char)
    requires Digit(c, 16) >= 0
    ensures DigitChar(Digit(c, 16), true) == UpperDigit(c)
  {
  }

  /** A 4-digit hex string parses as a Java int, to its digits' value. */
  lemma ParseHex4(h: string)
    requires |h| == 4 && AllDigits(h, 16)
    ensures ParseInt(h, 16) == Some(DigitsValue(h, 16))
  {
    Hex4Value(h);
    assert Digit(h[0], 16) >= 0;
  }

  /** A non-empty digit string with no sign parses to its value when that value
      fits a Java int. */
  lemma ParseUnsigned(s: string, radix: nat)
    requires 2 <= radix <= 36 && s != [] && AllDigits(s, radix)
    requires DigitsValue(s, radix) < 0x8000_0000
    ensures ParseInt(s, radix) == Some(DigitsValue(s, radix))
  {
    assert Digit(s[0], radix) >= 0;
  }
}
