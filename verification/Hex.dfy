/** Hexadecimal text, bytes and Ethereum addresses, as go-ethereum's common package reads and prints them. */
module Hex {

  type Byte = x: nat | x < 256

  type Address = a: seq<Byte> | |a| == 20 witness seq(20, _ => 0)

  predicate IsHexDigit(c: char) {
    '0' <= c <= '9' || 'a' <= c <= 'f' || 'A' <= c <= 'F'
  }

  function DigitValue(c: char): (v: nat)
    requires IsHexDigit(c)
    ensures v < 16
  {
    if '0' <= c <= '9' then c as int - '0' as int
    else if 'a' <= c <= 'f' then c as int - 'a' as int + 10
    else c as int - 'A' as int + 10
  }

  /** The digit of a value below 16, as a capital letter or not. */
  function Digit(v: nat, upper: bool): (c: char)
    requires v < 16
    ensures IsHexDigit(c) && DigitValue(c) == v
  {
    if v < 10 then '0' + v as char else if upper then 'A' + (v - 10) as char else 'a' + (v - 10) as char
  }

  /** The value of a digit is its place among the sixteen. */
  lemma DigitMeans(c: char)
    requires IsHexDigit(c)
    ensures "0123456789abcdef"[DigitValue(c)] == LowerChar(c)
  {
    assert DigitValue(c) < 10 ==> "0123456789abcdef"[DigitValue(c)] == c;
  }

  /** Decodes digit pairs up to the first that is none. */
  function DecodePairs(s: string): seq<Byte> {
    if |s| < 2 || !IsHexDigit(s[0]) || !IsHexDigit(s[1]) then []
    else [DigitValue(s[0]) * 16 + DigitValue(s[1])] + DecodePairs(s[2..])
  }

  function StripPrefix(s: string): string {
    if |s| >= 2 && s[0] == '0' && (s[1] == 'x' || s[1] == 'X') then s[2..] else s
  }

  function FromHex(s: string): seq<Byte> {
    var digits := StripPrefix(s);
    DecodePairs(if |digits| % 2 == 1 then "0" + digits else digits)
  }

  /** The last 20 bytes, with zeros in front if there are fewer. */
  function BytesToAddress(b: seq<Byte>): Address {
    if |b| > 20 then b[|b| - 20..] else seq(20 - |b|, _ => 0) + b
  }

  function HexToAddress(s: string): Address {
    BytesToAddress(FromHex(s))
  }

  /** Which letters of a printed address are capitals: a checksum that is not part of this model. */
  type Casing = (Address, nat) -> bool

  /** The digits of `a` from byte `i` on. */
  function Digits(a: Address, casing: Casing, i: nat): (s: string)
    requires i <= 20
    ensures |s| == 2 * (20 - i) && forall k :: 0 <= k < |s| ==> IsHexDigit(s[k])
    decreases 20 - i
  {
    if i == 20 then ""
    else [Digit(a[i] / 16, casing(a, 2 * i)), Digit(a[i] % 16, casing(a, 2 * i + 1))] + Digits(a, casing, i + 1)
  }

  function AddressHex(a: Address, casing: Casing): (s: string)
    ensures IsEthAddress(s)
  {
    "0x" + Digits(a, casing, 0)
  }

  /** The regular expression ^0x[0-9a-fA-F]{40}$. */
  predicate IsEthAddress(s: string) {
    |s| == 42 && s[0] == '0' && s[1] == 'x' && forall k :: 2 <= k < 42 ==> IsHexDigit(s[k])
  }

  function LowerChar(c: char): char {
    if 'A' <= c <= 'Z' then c - 'A' + 'a' else c
  }

  function Lower(s: string): (r: string)
    ensures |r| == |s| && forall k :: 0 <= k < |s| ==> r[k] == LowerChar(s[k])
  {
    seq(|s|, k requires 0 <= k < |s| => LowerChar(s[k]))
  }

  lemma {:induction false} DecodeDigits(a: Address, casing: Casing, i: nat)
    requires i <= 20
    ensures DecodePairs(Digits(a, casing, i)) == a[i..]
    decreases 20 - i
  {
    if i < 20 {
      var s := Digits(a, casing, i);
      assert s[2..] == Digits(a, casing, i + 1);
      DecodeDigits(a, casing, i + 1);
    }
  }

  /** Reading a printed address gives it back, however its letters are cased. */
  lemma AddressRoundTrip(a: Address, casing: Casing)
    ensures HexToAddress(AddressHex(a, casing)) == a
  {
    assert StripPrefix(AddressHex(a, casing)) == Digits(a, casing, 0);
    DecodeDigits(a, casing, 0);
  }

  lemma SamePair(c: char, d: char, b: Byte, upper: bool, upper': bool)
    requires IsHexDigit(c) && IsHexDigit(d) && b == DigitValue(c) * 16 + DigitValue(d)
    ensures Lower([Digit(b / 16, upper), Digit(b % 16, upper')]) == Lower([c, d])
  {
    assert b / 16 == DigitValue(c) && b % 16 == DigitValue(d);
  }

  lemma LowerAppends(s: string, t: string)
    ensures Lower(s + t) == Lower(s) + Lower(t)
  {
  }

  lemma {:induction false} DigitsOfDecoded(s: string, a: Address, casing: Casing, i: nat)
    requires i <= 20 && |s| == 2 * (20 - i) && (forall k :: 0 <= k < |s| ==> IsHexDigit(s[k])) && DecodePairs(s) == a[i..]
    ensures Lower(Digits(a, casing, i)) == Lower(s)
    decreases 20 - i
  {
    if i < 20 {
      var pair := [Digit(a[i] / 16, casing(a, 2 * i)), Digit(a[i] % 16, casing(a, 2 * i + 1))];
      assert a[i..][0] == a[i] && a[i..][1..] == a[i + 1..];
      SamePair(s[0], s[1], a[i], casing(a, 2 * i), casing(a, 2 * i + 1));
      DigitsOfDecoded(s[2..], a, casing, i + 1);
      LowerAppends(pair, Digits(a, casing, i + 1));
      LowerAppends([s[0], s[1]], s[2..]);
      assert s == [s[0], s[1]] + s[2..];
    }
  }

  lemma {:induction false} DecodeLength(s: string)
    requires |s| % 2 == 0 && forall k :: 0 <= k < |s| ==> IsHexDigit(s[k])
    ensures |DecodePairs(s)| == |s| / 2
  {
    if |s| >= 2 {
      DecodeLength(s[2..]);
    }
  }

  /** Printing what was read from a valid address gives that address again, up to the case of its letters. */
  lemma PrintRead(s: string, casing: Casing)
    requires IsEthAddress(s)
    ensures Lower(AddressHex(HexToAddress(s), casing)) == Lower(s)
  {
    var digits := s[2..];
    DecodeLength(digits);
    var a := HexToAddress(s);
    assert DecodePairs(digits) == a[0..];
    DigitsOfDecoded(digits, a, casing, 0);
    LowerAppends("0x", Digits(a, casing, 0));
    LowerAppends("0x", digits);
    assert s == "0x" + digits;
  }

  // ----- plain hexadecimal text

  /** Two small digits for each byte, without a prefix. */
  function HexText(b: seq<Byte>): (s: string)
    ensures |s| == 2 * |b| && forall k :: 0 <= k < |s| ==> IsHexDigit(s[k])
  {
    if b == [] then "" else [Digit(b[0] / 16, false), Digit(b[0] % 16, false)] + HexText(b[1..])
  }

  /** What stands behind whole bytes is read on its own. */
  lemma {:induction false} DecodeHexText(b: seq<Byte>, rest: string)
    ensures DecodePairs(HexText(b) + rest) == b + DecodePairs(rest)
  {
    if b == [] {
      assert HexText(b) + rest == rest;
    } else {
      DecodeHexText(b[1..], rest);
      assert (HexText(b) + rest)[2..] == HexText(b[1..]) + rest;
    }
  }

  lemma StripsPrefixOnly(s: string)
    requires |s| >= 2 ==> IsHexDigit(s[1])
    ensures StripPrefix(s) == s && StripPrefix("0x" + s) == s
  {
  }

  /** Bytes are read back from their text, with or without a prefix. */
  lemma HexTextRoundTrip(b: seq<Byte>)
    ensures FromHex(HexText(b)) == b && FromHex("0x" + HexText(b)) == b
  {
    StripsPrefixOnly(HexText(b));
    DecodeHexText(b, "");
    assert HexText(b) + "" == HexText(b);
  }

  lemma PairFirst(c: char, d: char, rest: string)
    requires IsHexDigit(c) && IsHexDigit(d)
    ensures DecodePairs([c, d] + rest) == [DigitValue(c) * 16 + DigitValue(d)] + DecodePairs(rest)
  {
    assert ([c, d] + rest)[2..] == rest;
  }

  lemma OddText(s: string)
    requires |s| % 2 == 1 && StripPrefix(s) == s
    ensures FromHex(s) == DecodePairs("0" + s)
  {
  }

  lemma DecodeText(text: string, b: seq<Byte>)
    requires text == HexText(b)
    ensures DecodePairs(text) == b
  {
    DecodeHexText(b, "");
    assert text + "" == text && b + [] == b;
  }

  /** An odd digit in front stands for a byte of its own. */
  lemma OddDigit(d: char, text: string, b: seq<Byte>)
    requires IsHexDigit(d) && text == HexText(b)
    ensures FromHex([d] + text) == [DigitValue(d)] + b
  {
    var s := [d] + text;
    StripsPrefixOnly(s);
    OddText(s);
    assert "0" + s == ['0', d] + text;
    PairFirst('0', d, text);
    DecodeText(text, b);
  }

  /** An address is aligned to the right of its bytes: what is too much in front is cut, what is missing is zero. */
  lemma AddressAlignment(b: seq<Byte>, k: nat)
    requires k < 20
    ensures BytesToAddress(b)[k] == if k + |b| >= 20 then b[k + |b| - 20] else 0
  {
  }
}
