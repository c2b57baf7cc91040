/** Sixteen-byte legacy addresses and their trimmed hexadecimal literals. Text is the UTF-8 bytes of
    the string, as `str::len` and the hex parser count them. */
module LegacyAddress {
  import opened Common
  import opened Hex
  import opened TypeTags

  const X_CHAR: byte := 120
  const HEX_LENGTH: nat := 2 * ADDRESS_LENGTH

  // ----- Formatting -----

  function TrimZeros(s: seq<byte>): (r: seq<byte>)
    ensures |r| <= |s|
  {
    if s == [] || s[0] != ZERO_CHAR then s else TrimZeros(s[1..])
  }

  function ShortStrLossless(a: Address): seq<byte> {
    var trimmed := TrimZeros(HexEncode(a));
    if trimmed == [] then [ZERO_CHAR] else trimmed
  }

  function ToHexLiteral(a: Address): seq<byte> {
    [ZERO_CHAR, X_CHAR] + ShortStrLossless(a)
  }

  /** The formatter's loop: two digits per byte, in order. */
  method FormatLowerHex(a: Address) returns (s: seq<byte>)
    ensures s == HexEncode(a)
  {
    s := [];
    for i := 0 to |a|
      invariant s == HexEncode(a[..i])
    {
      assert a[..i + 1][..i] == a[..i];
      s := s + [HexDigit(a[i] / 16), HexDigit(a[i] % 16)];
    }
    assert a[..|a|] == a;
  }

  // ----- Parsing -----

  function FromHex(s: seq<byte>): (r: Option<Address>)
  {
    if |s| != HEX_LENGTH then None else HexDecode(s)
  }

  function Zeros(n: nat): (s: seq<byte>)
    ensures |s| == n && forall i :: 0 <= i < n ==> s[i] == ZERO_CHAR
  {
    seq(n, _ => ZERO_CHAR)
  }

  function ParseLiteral(literal: seq<byte>): (r: Option<Address>) {
    if !([ZERO_CHAR, X_CHAR] <= literal) then None
    else if |literal| - 2 < HEX_LENGTH then FromHex(Zeros(HEX_LENGTH - (|literal| - 2)) + literal[2..])
    else FromHex(literal[2..])
  }

  /** The parser as written: pad a fresh string with zeros in a loop, then append the digits. */
  method FromHexLiteral(literal: seq<byte>) returns (r: Option<Address>)
    ensures r == ParseLiteral(literal)
  {
    if !([ZERO_CHAR, X_CHAR] <= literal) {
      return None;
    }
    var hexLen := |literal| - 2;
    if hexLen < HEX_LENGTH {
      var hexStr: seq<byte> := [];
      for i := 0 to HEX_LENGTH - hexLen
        invariant hexStr == Zeros(i)
      {
        hexStr := hexStr + [ZERO_CHAR];
      }
      hexStr := hexStr + literal[2..];
      r := FromHex(hexStr);
    } else {
      r := FromHex(literal[2..]);
    }
  }

  // ----- Values -----

  lemma {:induction false} LeadingZero(s: seq<byte>)
    requires AllHex(s)
    ensures AllHex([ZERO_CHAR] + s) && HexNat([ZERO_CHAR] + s) == HexNat(s)
  {
    var z := [ZERO_CHAR] + s;
    assert AllHex(z);
    if s == [] {
      assert z[..0] == [];
    } else {
      LeadingZero(s[..|s| - 1]);
      assert z[..|z| - 1] == [ZERO_CHAR] + s[..|s| - 1];
    }
  }

  lemma {:induction false} ZerosInFront(n: nat, s: seq<byte>)
    requires AllHex(s)
    ensures AllHex(Zeros(n) + s) && HexNat(Zeros(n) + s) == HexNat(s)
  {
    if n == 0 {
      assert Zeros(0) + s == s;
    } else {
      ZerosInFront(n - 1, s);
      LeadingZero(Zeros(n - 1) + s);
      assert Zeros(n) + s == [ZERO_CHAR] + (Zeros(n - 1) + s);
    }
  }

  lemma {:induction false} TrimKeepsValue(s: seq<byte>)
    requires AllHex(s)
    ensures AllHex(TrimZeros(s)) && HexNat(TrimZeros(s)) == HexNat(s)
  {
    if s == [] || s[0] != ZERO_CHAR {
    } else {
      LeadingZero(s[1..]);
      TrimKeepsValue(s[1..]);
      assert s == [ZERO_CHAR] + s[1..];
    }
  }

  // ----- Main results -----

  lemma {:induction false} TrimLeavesNoZero(s: seq<byte>)
    ensures TrimZeros(s) == [] || TrimZeros(s)[0] != ZERO_CHAR
  {
    if s == [] || s[0] != ZERO_CHAR {
    } else {
      TrimLeavesNoZero(s[1..]);
    }
  }

  lemma ShortStrValue(a: Address)
    ensures var s := ShortStrLossless(a);
            0 < |s| <= 32 && (|s| > 1 ==> s[0] as char != '0') && AllHex(s) && HexNat(s) == BeValue(a)
  {
    HexEncodeValue(a);
    TrimLeavesNoZero(HexEncode(a));
    TrimKeepsValue(HexEncode(a));
    var z := [ZERO_CHAR];
    assert z[..0] == [] && HexNat(z) == 0;
  }

  lemma ShortStrInjective(a: Address, b: Address)
    requires ShortStrLossless(a) == ShortStrLossless(b)
    ensures a == b
  {
    ShortStrValue(a);
    ShortStrValue(b);
    BeValueInjective(a, b);
  }

  /** The parser accepts exactly `0x` followed by at most 32 hexadecimal digits of either case,
      and returns the address with that big-endian value. */
  lemma ParseLiteralExact(literal: seq<byte>, a: Address)
    ensures ParseLiteral(literal) == Some(a) <==>
            && ['0' as int, 'x' as int] <= literal
            && |literal| - 2 <= 32
            && AllHex(literal[2..])
            && HexNat(literal[2..]) == BeValue(a)
  {
    if [ZERO_CHAR, X_CHAR] <= literal && |literal| - 2 <= HEX_LENGTH {
      var digits := literal[2..];
      var padding := HEX_LENGTH - |digits|;
      var padded := Zeros(padding) + digits;
      assert padding == 0 ==> padded == digits;
      if AllHex(digits) {
        ZerosInFront(padding, digits);
        HexDecodeValue(padded);
        var b := HexDecode(padded).value;
        if BeValue(a) == BeValue(b) {
          BeValueInjective(a, b);
        }
      } else {
        var i :| 0 <= i < |digits| && HexValue(digits[i]).None?;
        assert padded[padding + i] == digits[i];
        if HexDecode(padded).Some? { HexDecodeNeedsHex(padded); }
      }
    }
  }

  /** Every address, the zero address included, is recovered from its trimmed literal. */
  lemma LiteralRoundTrip(a: Address)
    ensures ParseLiteral(ToHexLiteral(a)) == Some(a)
  {
    ShortStrValue(a);
    assert ToHexLiteral(a)[2..] == ShortStrLossless(a);
    ParseLiteralExact(ToHexLiteral(a), a);
  }
}
