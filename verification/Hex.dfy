/** Hexadecimal text: digits of either case, pairs of digits for bytes, and their values. Text is the
    ASCII codes of its characters; `Chars` gives it as a string. */
module Hex {
  import opened Common

  const ZERO_CHAR: byte := 48

  function HexDigit(n: nat): (c: byte)
    requires n < 16
    ensures HexValue(c) == Some(n)
    ensures c == ZERO_CHAR <==> n == 0
  {
    if n < 10 then 48 + n else 87 + n
  }

  /** Value of a hexadecimal character of either case. */
  function HexValue(c: byte): (r: Option<nat>)
    ensures r.Some? ==> r.value < 16
  {
    if 48 <= c <= 57 then Some(c - 48)
    else if 97 <= c <= 102 then Some(c - 87)
    else if 65 <= c <= 70 then Some(c - 55)
    else None
  }

  /** The digits, and the values of both cases. */
  lemma DigitTable(n: nat)
    requires n < 16
    ensures HexDigit(n) as char == "0123456789abcdef"[n]
    ensures HexValue("0123456789ABCDEF"[n] as int) == Some(n)
    ensures HexValue("0123456789abcdef"[n] as int) == Some(n)
  {
  }

  predicate AllHex(s: seq<byte>) {
    forall i :: 0 <= i < |s| ==> HexValue(s[i]).Some?
  }

  /** Big-endian value of a digit string. */
  ghost function HexNat(s: seq<byte>): nat
    requires AllHex(s)
  {
    if s == [] then 0 else 16 * HexNat(s[..|s| - 1]) + HexValue(s[|s| - 1]).value
  }

  /** Big-endian value of a byte string. */
  ghost function BeValue(bs: seq<byte>): nat {
    if bs == [] then 0 else 256 * BeValue(bs[..|bs| - 1]) + bs[|bs| - 1]
  }

  function HexEncode(bs: seq<byte>): (s: seq<byte>)
    ensures |s| == 2 * |bs|
  {
    if bs == [] then []
    else
      var last := bs[|bs| - 1];
      HexEncode(bs[..|bs| - 1]) + [HexDigit(last / 16), HexDigit(last % 16)]
  }

  /** Pairs of digits; an odd one out is an error. */
  function HexDecode(s: seq<byte>): (r: Option<seq<byte>>)
    ensures r.Some? ==> 2 * |r.value| == |s|
  {
    if s == [] then Some([])
    else if |s| == 1 then None
    else
      var init :- HexDecode(s[..|s| - 2]);
      var high :- HexValue(s[|s| - 2]);
      var low :- HexValue(s[|s| - 1]);
      Some(init + [16 * high + low])
  }

  // ----- Values -----

  lemma HexNatPair(init: seq<byte>, high: byte, low: byte)
    requires AllHex(init) && HexValue(high).Some? && HexValue(low).Some?
    ensures AllHex(init + [high, low])
    ensures HexNat(init + [high, low]) == 256 * HexNat(init) + (16 * HexValue(high).value + HexValue(low).value)
  {
    var s := init + [high, low];
    assert s[..|s| - 1][..|s| - 2] == init;
    assert HexNat(s[..|s| - 1]) == 16 * HexNat(init) + HexValue(high).value;
  }

  lemma BeValueSnoc(init: seq<byte>, last: byte)
    ensures BeValue(init + [last]) == 256 * BeValue(init) + last
  {
    assert (init + [last])[..|init|] == init;
  }

  lemma {:induction false} HexEncodeValue(bs: seq<byte>)
    ensures AllHex(HexEncode(bs)) && HexNat(HexEncode(bs)) == BeValue(bs)
  {
    if bs == [] {
    } else {
      var init, last := bs[..|bs| - 1], bs[|bs| - 1];
      HexEncodeValue(init);
      HexNatPair(HexEncode(init), HexDigit(last / 16), HexDigit(last % 16));
    }
  }

  lemma {:induction false} HexDecodeValue(s: seq<byte>)
    requires |s| % 2 == 0 && AllHex(s)
    ensures HexDecode(s).Some? && BeValue(HexDecode(s).value) == HexNat(s)
  {
    if s == [] {
    } else {
      var init, high, low := s[..|s| - 2], s[|s| - 2], s[|s| - 1];
      HexDecodeValue(init);
      assert s == init + [high, low];
      HexNatPair(init, high, low);
      BeValueSnoc(HexDecode(init).value, 16 * HexValue(high).value + HexValue(low).value);
    }
  }

  lemma {:induction false} HexDecodeNeedsHex(s: seq<byte>)
    requires HexDecode(s).Some?
    ensures AllHex(s)
  {
    if s == [] {
    } else {
      HexDecodeNeedsHex(s[..|s| - 2]);
    }
  }

  lemma {:induction false} BeValueInjective(a: seq<byte>, b: seq<byte>)
    requires |a| == |b| && BeValue(a) == BeValue(b)
    ensures a == b
  {
    if a == [] {
    } else {
      BeValueInjective(a[..|a| - 1], b[..|b| - 1]);
      assert a == a[..|a| - 1] + [a[|a| - 1]];
      assert b == b[..|b| - 1] + [b[|b| - 1]];
    }
  }

  /** The two digits of the last byte. */
  lemma LastDigits(bs: seq<byte>) returns (high: byte, low: byte)
    requires bs != []
    ensures HexEncode(bs) == HexEncode(bs[..|bs| - 1]) + [high, low]
    ensures HexValue(high).Some? && HexValue(low).Some?
    ensures 16 * HexValue(high).value + HexValue(low).value == bs[|bs| - 1]
  {
    var last := bs[|bs| - 1];
    high, low := HexDigit(last / 16), HexDigit(last % 16);
  }

  lemma HexDecodeSnoc(whole: seq<byte>, s: seq<byte>, init: seq<byte>, high: byte, low: byte, last: byte)
    requires HexDecode(s) == Some(init) && whole == s + [high, low]
    requires HexValue(high).Some? && HexValue(low).Some?
    requires 16 * HexValue(high).value + HexValue(low).value == last
    ensures HexDecode(whole) == Some(init + [last])
  {
    assert whole[..|whole| - 2] == s && whole[|whole| - 2] == high && whole[|whole| - 1] == low;
  }

  /** Bytes are read back from their digits. */
  lemma {:induction false} HexRoundTrip(bs: seq<byte>)
    ensures HexDecode(HexEncode(bs)) == Some(bs)
  {
    if bs == [] {
    } else {
      var init, last := bs[..|bs| - 1], bs[|bs| - 1];
      assert bs == init + [last];
      var high, low := LastDigits(bs);
      HexRoundTrip(init);
      HexDecodeSnoc(HexEncode(bs), HexEncode(init), init, high, low, last);
    }
  }

  lemma {:induction false} BeValueOfZeros(bs: seq<byte>)
    requires forall i :: 0 <= i < |bs| ==> bs[i] == 0
    ensures BeValue(bs) == 0
  {
    if bs == [] {
    } else {
      BeValueOfZeros(bs[..|bs| - 1]);
    }
  }

  // ----- As strings -----

  function Chars(codes: seq<byte>): (s: string)
    ensures |s| == |codes|
    ensures forall i :: 0 <= i < |s| ==> s[i] as int == codes[i]
  {
    seq(|codes|, i requires 0 <= i < |codes| => codes[i] as char)
  }

  predicate IsHexChar(c: char) {
    c as int < 256 && HexValue(c as int).Some?
  }

  predicate AllHexChars(s: string) {
    forall i :: 0 <= i < |s| ==> IsHexChar(s[i])
  }

  function Codes(s: string): (codes: seq<byte>)
    requires AllHexChars(s)
    ensures |codes| == |s| && AllHex(codes)
    ensures forall i :: 0 <= i < |s| ==> codes[i] == s[i] as int
  {
    seq(|s|, i requires 0 <= i < |s| => s[i] as int)
  }

  /** A hexadecimal byte-string literal: an even number of hexadecimal digits. */
  predicate IsHexLiteral(s: string) {
    |s| % 2 == 0 && AllHexChars(s)
  }

  function HexBytes(s: string): seq<byte>
    requires IsHexLiteral(s)
  {
    HexDecodeValue(Codes(s));
    HexDecode(Codes(s)).value
  }

  /** Bytes as lower-case hexadecimal text. */
  function HexText(bs: seq<byte>): string { Chars(HexEncode(bs)) }

  lemma HexBytesOf(codes: seq<byte>, bs: seq<byte>)
    requires AllHex(codes) && HexDecode(codes) == Some(bs)
    ensures IsHexLiteral(Chars(codes)) && HexBytes(Chars(codes)) == bs
  {
    CodesOfChars(codes);
    assert |codes| % 2 == 0;
  }

  lemma CodesOfChars(codes: seq<byte>)
    requires AllHex(codes)
    ensures AllHexChars(Chars(codes)) && Codes(Chars(codes)) == codes
  {
  }

  /** The high half of each byte comes first. */
  lemma KnownHexText()
    ensures HexText([0x12, 0xAB]) == "12ab"
  {
    var bs: seq<byte> := [0x12, 0xAB];
    assert bs[..1] == [0x12] && ([0x12 as byte])[..0] == [];
    assert HexEncode([0x12]) == [49, 50];
    assert HexEncode(bs) == [49, 50, 97, 98];
  }

  /** The text of any bytes is a literal, and the literal of those bytes. */
  lemma HexTextExact(bs: seq<byte>)
    ensures IsHexLiteral(HexText(bs)) && HexBytes(HexText(bs)) == bs
  {
    HexEncodeValue(bs);
    HexRoundTrip(bs);
    HexBytesOf(HexEncode(bs), bs);
  }
}
