/** The part of Binary Canonical Serialization that the legacy formats use: ULEB128 lengths and
    variant indices, little-endian integers, length-prefixed bytes and UTF-8 strings.
    Writers are total functions; readers return the value with the unread suffix. */
module Bcs {
  import opened Common

  const U32_MAX: nat := 0xFFFF_FFFF
  // The longest sequence BCS writes or reads.
  const MAX_SEQUENCE_LENGTH: nat := 0x7FFF_FFFF

  datatype Error =
    | Eof
    | NonCanonicalUleb
    | UlebOverflow
    | ExceededMaxLen
    | ExpectedBoolean
    | InvalidUtf8
    | UnknownVariant
    | NestingExceeded
    | WrongLength
    | RemainingInput

  datatype Result<+T> = Ok(value: T) | Err(error: Error) {
    predicate IsFailure() { Err? }
    function PropagateFailure<U>(): Result<U> requires Err? { Err(error) }
    function Extract(): T requires Ok? { value }
  }

  /** What a reader returns: the value and the bytes it did not consume. */
  datatype Parsed<+T> = Done(value: T, rest: seq<byte>) | Fail(error: Error)

  // ----- ULEB128-Encoded Integers -----

  function WriteUleb(n: nat): (bs: seq<byte>)
    ensures |bs| > 0
  {
    if n < 128 then [n] else [128 + n % 128] + WriteUleb(n / 128)
  }

  /** Reads base-128 digits from position `k`; at most five digits, the last one non-zero. */
  function ReadDigits(bs: seq<byte>, k: nat): (r: Parsed<nat>)
    requires k <= 4
    ensures r.Done? ==> |r.rest| < |bs|
    decreases 4 - k
  {
    if bs == [] then Fail(Eof)
    else if bs[0] < 128 then
      if k > 0 && bs[0] == 0 then Fail(NonCanonicalUleb) else Done(bs[0], bs[1..])
    else if k == 4 then Fail(UlebOverflow)
    else
      match ReadDigits(bs[1..], k + 1)
      case Done(high, rest) => Done(bs[0] - 128 + 128 * high, rest)
      case Fail(e) => Fail(e)
  }

  function ReadUleb(bs: seq<byte>): (r: Parsed<nat>)
    ensures r.Done? ==> |r.rest| < |bs|
  {
    var r := ReadDigits(bs, 0);
    if r.Done? && r.value > U32_MAX then Fail(UlebOverflow) else r
  }

  function Pow128(k: nat): (p: nat)
    ensures p > 0
  {
    if k == 0 then 1 else 128 * Pow128(k - 1)
  }

  lemma {:induction false} ReadDigitsInvertsWrite(n: nat, k: nat, rest: seq<byte>)
    requires k <= 4 && n < Pow128(5 - k) && (k > 0 ==> n > 0)
    ensures ReadDigits(WriteUleb(n) + rest, k) == Done(n, rest)
    decreases 4 - k
  {
    var bs := WriteUleb(n) + rest;
    assert Pow128(1) == 128;
    if n < 128 {
      assert bs[0] == n && bs[1..] == rest;
    } else {
      assert Pow128(5 - k) == 128 * Pow128(4 - k);
      assert bs[0] == 128 + n % 128 && bs[1..] == WriteUleb(n / 128) + rest;
      ReadDigitsInvertsWrite(n / 128, k + 1, rest);
    }
  }

  lemma {:induction false} ReadDigitsIsCanonical(bs: seq<byte>, k: nat)
    requires k <= 4 && ReadDigits(bs, k).Done?
    ensures var r := ReadDigits(bs, k);
            bs == WriteUleb(r.value) + r.rest && (k > 0 ==> r.value > 0)
    decreases 4 - k
  {
    if bs[0] < 128 {
    } else {
      ReadDigitsIsCanonical(bs[1..], k + 1);
      var high := ReadDigits(bs[1..], k + 1).value;
      var n := bs[0] - 128 + 128 * high;
      assert n / 128 == high && n % 128 == bs[0] - 128;
      assert bs == [bs[0]] + bs[1..];
    }
  }

  /** Every 32-bit value is read back from its encoding, whatever follows. */
  lemma UlebRoundTrip(n: nat, rest: seq<byte>)
    requires n < 0x1_0000_0000
    ensures ReadUleb(WriteUleb(n) + rest) == Done(n, rest)
  {
    assert Pow128(5) == 128 * 128 * 128 * 128 * 128 by {
      assert Pow128(1) == 128 && Pow128(2) == 128 * 128;
      assert Pow128(3) == 128 * Pow128(2) && Pow128(4) == 128 * Pow128(3);
    }
    ReadDigitsInvertsWrite(n, 0, rest);
  }

  /** Only the shortest encoding is accepted. */
  lemma UlebCanonical(bs: seq<byte>)
    requires ReadUleb(bs).Done?
    ensures var r := ReadUleb(bs);
            r.value < 0x1_0000_0000 && bs == WriteUleb(r.value) + r.rest
  {
    ReadDigitsIsCanonical(bs, 0);
  }

  /** Value of base-128 digits, low one first; the high bit is not part of a digit. */
  function DigitsValue(bs: seq<byte>): nat {
    if bs == [] then 0 else bs[0] % 128 + 128 * DigitsValue(bs[1..])
  }

  /** The bytes of a number are its base-128 digits, low one first, with the high bit set on all but
      the last one, which is not zero unless it is the only one. */
  lemma {:induction false} UlebDigits(n: nat)
    ensures var bs := WriteUleb(n);
            && DigitsValue(bs) == n
            && (forall i :: 0 <= i < |bs| - 1 ==> bs[i] >= 128)
            && bs[|bs| - 1] < 128
            && (|bs| > 1 ==> bs[|bs| - 1] > 0)
  {
    if n < 128 {
      assert ([n])[1..] == [];
    } else {
      UlebDigits(n / 128);
      DigitsCons(n % 128, WriteUleb(n / 128));
    }
  }

  lemma DigitsCons(low: nat, rest: seq<byte>)
    requires low < 128 && rest != []
    requires forall i :: 0 <= i < |rest| - 1 ==> rest[i] >= 128
    ensures var bs: seq<byte> := [128 + low] + rest;
            && DigitsValue(bs) == low + 128 * DigitsValue(rest)
            && (forall i :: 0 <= i < |bs| - 1 ==> bs[i] >= 128)
            && bs[|bs| - 1] == rest[|rest| - 1]
  {
    var bs: seq<byte> := [128 + low] + rest;
    assert bs[1..] == rest && (128 + low) % 128 == low;
  }

  lemma KnownUlebs()
    ensures WriteUleb(0) == [0] && WriteUleb(127) == [127]
    ensures WriteUleb(128) == [128, 1] && WriteUleb(300) == [172, 2]
  {
    assert WriteUleb(1) == [1] && WriteUleb(2) == [2];
  }

  // ----- Fixed and Variable Length Sequences, Strings -----

  function ReadLength(bs: seq<byte>): (r: Parsed<nat>)
    ensures r.Done? ==> |r.rest| < |bs|
  {
    var r := ReadUleb(bs);
    if r.Done? && r.value > MAX_SEQUENCE_LENGTH then Fail(ExceededMaxLen) else r
  }

  function ReadFixed(bs: seq<byte>, n: nat): (r: Parsed<seq<byte>>)
    ensures r.Done? ==> |r.rest| <= |bs|
  {
    if |bs| < n then Fail(Eof) else Done(bs[..n], bs[n..])
  }

  function WriteBytes(s: seq<byte>): (bs: seq<byte>)
    ensures |bs| > |s|
  {
    WriteUleb(|s|) + s
  }

  function ReadBytes(bs: seq<byte>): (r: Parsed<seq<byte>>)
    ensures r.Done? ==> |r.rest| < |bs|
  {
    match ReadLength(bs)
    case Done(n, rest) => ReadFixed(rest, n)
    case Fail(e) => Fail(e)
  }

  lemma BytesRoundTrip(s: seq<byte>, rest: seq<byte>)
    requires |s| < 0x8000_0000
    ensures ReadBytes(WriteBytes(s) + rest) == Done(s, rest)
  {
    assert WriteBytes(s) + rest == WriteUleb(|s|) + (s + rest);
    UlebRoundTrip(|s|, s + rest);
  }

  lemma BytesCanonical(bs: seq<byte>)
    requires ReadBytes(bs).Done?
    ensures var r := ReadBytes(bs);
            |r.value| < 0x8000_0000 && bs == WriteBytes(r.value) + r.rest
  {
    UlebCanonical(bs);
  }

  predicate Continuation(b: byte) { 0x80 <= b <= 0xBF }

  /** Well-formed UTF-8 (Unicode Standard, Table 3-7). */
  predicate Utf8(s: seq<byte>) {
    if s == [] then true
    else if s[0] < 0x80 then Utf8(s[1..])
    else if 0xC2 <= s[0] <= 0xDF then |s| >= 2 && Continuation(s[1]) && Utf8(s[2..])
    else if 0xE0 <= s[0] <= 0xEF then
      |s| >= 3 && Continuation(s[1]) && Continuation(s[2])
      && (s[0] == 0xE0 ==> s[1] >= 0xA0) && (s[0] == 0xED ==> s[1] <= 0x9F) && Utf8(s[3..])
    else if 0xF0 <= s[0] <= 0xF4 then
      |s| >= 4 && Continuation(s[1]) && Continuation(s[2]) && Continuation(s[3])
      && (s[0] == 0xF0 ==> s[1] >= 0x90) && (s[0] == 0xF4 ==> s[1] <= 0x8F) && Utf8(s[4..])
    else false
  }

  type Utf8Bytes = s: seq<byte> | Utf8(s) witness []

  function ReadString(bs: seq<byte>): (r: Parsed<Utf8Bytes>)
    ensures r.Done? ==> |r.rest| < |bs|
  {
    match ReadBytes(bs)
    case Done(s, rest) => if Utf8(s) then Done(s, rest) else Fail(InvalidUtf8)
    case Fail(e) => Fail(e)
  }

  // ----- Booleans and Integers -----

  function Pow256(k: nat): (p: nat)
    ensures p > 0
  {
    if k == 0 then 1 else 256 * Pow256(k - 1)
  }

  function LeBytes(n: nat, k: nat): (bs: seq<byte>)
    ensures |bs| == k
    decreases k
  {
    if k == 0 then [] else [n % 256] + LeBytes(n / 256, k - 1)
  }

  function LeValue(bs: seq<byte>): nat {
    if bs == [] then 0 else bs[0] + 256 * LeValue(bs[1..])
  }

  lemma {:induction false} LeValueInvertsLeBytes(n: nat, k: nat)
    requires n < Pow256(k)
    ensures LeValue(LeBytes(n, k)) == n
    decreases k
  {
    if k == 0 {
    } else {
      LeValueInvertsLeBytes(n / 256, k - 1);
    }
  }

  lemma {:induction false} LeBytesInvertsLeValue(bs: seq<byte>)
    ensures LeValue(bs) < Pow256(|bs|)
    ensures LeBytes(LeValue(bs), |bs|) == bs
  {
    if bs == [] {
    } else {
      LeBytesInvertsLeValue(bs[1..]);
      var n := LeValue(bs);
      assert n % 256 == bs[0] && n / 256 == LeValue(bs[1..]);
      assert bs == [bs[0]] + bs[1..];
    }
  }

  lemma MulAssoc(x: int, y: int, z: int)
    ensures x * (y * z) == x * y * z
  {
  }

  /** Later bytes weigh more: each byte 256 times the one before it. */
  lemma {:induction false} LeValueConcat(a: seq<byte>, b: seq<byte>)
    ensures LeValue(a + b) == LeValue(a) + Pow256(|a|) * LeValue(b)
  {
    if a == [] {
      assert a + b == b;
    } else {
      LeValueConcat(a[1..], b);
      assert (a + b)[0] == a[0] && (a + b)[1..] == a[1..] + b;
      MulAssoc(256, Pow256(|a| - 1), LeValue(b));
    }
  }

  lemma {:induction false} LeBytesOfZero(k: nat)
    ensures LeBytes(0, k) == seq(k, _ => 0)
  {
    if k == 0 {
    } else {
      LeBytesOfZero(k - 1);
    }
  }

  /** A single byte comes first. */
  lemma LeBytesOfByte(b: byte)
    ensures LeBytes(b, 8) == [b, 0, 0, 0, 0, 0, 0, 0]
  {
    LeBytesOfZero(7);
  }

  lemma Pow256Values()
    ensures Pow256(8) == U64_MAX + 1
  {
    assert Pow256(2) == 256 * 256;
    assert Pow256(4) == 256 * (256 * Pow256(2));
    assert Pow256(6) == 256 * (256 * Pow256(4));
  }

  lemma U64RoundTrip(n: u64)
    ensures LeValue(LeBytes(n, 8)) == n
  {
    Pow256Values();
    LeValueInvertsLeBytes(n, 8);
  }
}
