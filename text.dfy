/**
 * The text conversions the tester uses to build its downlink summary:
 * Arduino's `String(n)` (decimal) and `String(b, HEX)` (lower-case
 * hexadecimal without leading zeros), each with the parser that reads it
 * back.
 */
module Text {
  import opened Wrappers
  import opened Lmic

  predicate IsDigit(c: char) { '0' <= c <= '9' }

  predicate AllDigits(s: string) { forall i :: 0 <= i < |s| ==> IsDigit(s[i]) }

  function DigitChar(d: nat): (c: char)
    requires d < 10
    ensures IsDigit(c) && c as int - '0' as int == d
  {
    ('0' as int + d) as char
  }

  /** The decimal text of `n`, as `String(n)` prints an unsigned number. */
  function Dec(n: nat): (s: string)
    ensures 1 <= |s| && AllDigits(s)
    ensures n < 10 <==> |s| == 1
  {
    if n < 10 then [DigitChar(n)] else Dec(n / 10) + [DigitChar(n % 10)]
  }

  /** The number a string of decimal digits denotes. */
  function DigitsValue(s: string): nat
    requires AllDigits(s)
  {
    if s == [] then 0 else DigitsValue(s[..|s| - 1]) * 10 + (s[|s| - 1] as int - '0' as int)
  }

  lemma {:induction false} DecValue(n: nat)
    ensures DigitsValue(Dec(n)) == n
  {
    if n >= 10 {
      var s := Dec(n);
      assert s[..|s| - 1] == Dec(n / 10);
      DecValue(n / 10);
    }
  }

  /** The number of decimal digits at the front of `s`. */
  function LeadingDigits(s: string): (k: nat)
    ensures k <= |s| && AllDigits(s[..k])
    ensures k < |s| ==> !IsDigit(s[k])
  {
    if s == [] || !IsDigit(s[0]) then 0
    else
      var k := 1 + LeadingDigits(s[1..]);
      assert s[..k] == [s[0]] + s[1..][..k - 1];
      k
  }

  /** Reads the decimal number at the front of `s`; also gives what follows it. */
  function ParseDec(s: string): Option<(nat, string)>
  {
    var k := LeadingDigits(s);
    if k == 0 then None else Some((DigitsValue(s[..k]), s[k..]))
  }

  lemma {:induction false} LeadingDigitsOf(d: string, rest: string)
    requires AllDigits(d)
    requires rest == [] || !IsDigit(rest[0])
    ensures LeadingDigits(d + rest) == |d|
  {
    if d != [] {
      assert (d + rest)[1..] == d[1..] + rest;
      LeadingDigitsOf(d[1..], rest);
    }
  }

  /** `ParseDec` reads back what `Dec` prints, when no digit follows it. */
  lemma ParseDecOfDec(n: nat, rest: string)
    requires rest == [] || !IsDigit(rest[0])
    ensures ParseDec(Dec(n) + rest) == Some((n, rest))
  {
    var d := Dec(n);
    LeadingDigitsOf(d, rest);
    assert (d + rest)[..|d|] == d;
    assert (d + rest)[|d|..] == rest;
    DecValue(n);
  }

  predicate IsHexDigit(c: char) { '0' <= c <= '9' || 'a' <= c <= 'f' }

  function HexDigit(d: nat): (c: char)
    requires d < 16
    ensures IsHexDigit(c)
  {
    if d < 10 then ('0' as int + d) as char else ('a' as int + d - 10) as char
  }

  /** Below ten, a hexadecimal digit is the decimal digit. */
  lemma HexDigitIsDecimal(d: nat)
    requires d < 10
    ensures HexDigit(d) == DigitChar(d)
  {
  }

  /** The value of a lower-case hexadecimal digit. */
  function HexValue(c: char): (d: nat)
    requires IsHexDigit(c)
    ensures d < 16
  {
    if c <= '9' then c as int - '0' as int else c as int - 'a' as int + 10
  }

  lemma HexValueOfDigit(d: nat)
    requires d < 16
    ensures HexValue(HexDigit(d)) == d
  {
  }

  /** The hexadecimal text of `n` without leading zeros, as `String(n, HEX)` prints it. */
  function Radix16(n: nat): (s: string)
    ensures 1 <= |s| && forall i :: 0 <= i < |s| ==> IsHexDigit(s[i])
  {
    if n < 16 then [HexDigit(n)] else Radix16(n / 16) + [HexDigit(n % 16)]
  }

  /** A byte as two hexadecimal digits, high nibble first. */
  function HexByte(b: Byte): (s: string)
    ensures |s| == 2 && IsHexDigit(s[0]) && IsHexDigit(s[1])
  {
    [HexDigit(b / 16), HexDigit(b % 16)]
  }

  /** The tester pads `String(b, HEX)` with a "0" below 0x10, which gives exactly two digits. */
  lemma PaddedRadix16(b: Byte)
    ensures (if b < 0x10 then "0" else "") + Radix16(b) == HexByte(b)
  {
    if b >= 16 {
      assert Radix16(b / 16) == [HexDigit(b / 16)];
    }
  }

  /** Appending a byte's padded `String(b, HEX)` to a text appends its two digits. */
  lemma PaddedStep(s0: string, s1: string, b: Byte)
    requires s1 == if b < 0x10 then s0 + "0" else s0
    ensures s1 + Radix16(b) == s0 + HexByte(b)
  {
    PaddedRadix16(b);
    if b < 0x10 {
      AppendAssoc(s0, "0", Radix16(b));
    }
  }

  /** Bytes as hexadecimal text, two digits per byte. */
  function Hex(bs: seq<Byte>): (s: string)
    ensures |s| == 2 * |bs|
  {
    if bs == [] then [] else Hex(bs[..|bs| - 1]) + HexByte(bs[|bs| - 1])
  }

  lemma HexSnoc(bs: seq<Byte>, b: Byte)
    ensures Hex(bs + [b]) == Hex(bs) + HexByte(b)
  {
    assert (bs + [b])[..|bs|] == bs;
  }

  lemma {:induction false} HexDigits(bs: seq<Byte>)
    ensures forall i :: 0 <= i < |Hex(bs)| ==> IsHexDigit(Hex(bs)[i])
  {
    if bs != [] {
      HexDigits(bs[..|bs| - 1]);
    }
  }

  /** Reads bytes written as pairs of hexadecimal digits. */
  function ParseHex(s: string): Option<seq<Byte>>
  {
    if s == [] then Some([])
    else if |s| < 2 || !IsHexDigit(s[|s| - 2]) || !IsHexDigit(s[|s| - 1]) then None
    else
      match ParseHex(s[..|s| - 2])
      case None => None
      case Some(bs) => Some(bs + [HexValue(s[|s| - 2]) * 16 + HexValue(s[|s| - 1])])
  }

  lemma HexByteValue(b: Byte)
    ensures HexValue(HexDigit(b / 16)) * 16 + HexValue(HexDigit(b % 16)) == b
  {
    HexValueOfDigit(b / 16);
    HexValueOfDigit(b % 16);
  }

  lemma ParseHexSnoc(h: string, bs: seq<Byte>, b: Byte)
    requires ParseHex(h) == Some(bs)
    ensures ParseHex(h + HexByte(b)) == Some(bs + [b])
  {
    var s := h + HexByte(b);
    assert s[..|s| - 2] == h;
    HexByteValue(b);
  }

  lemma {:induction false} ParseHexOfHex(bs: seq<Byte>)
    ensures ParseHex(Hex(bs)) == Some(bs)
  {
    if bs != [] {
      var init, b := bs[..|bs| - 1], bs[|bs| - 1];
      assert bs == init + [b];
      HexSnoc(init, b);
      ParseHexOfHex(init);
      ParseHexSnoc(Hex(init), init, b);
    }
  }
}
