/** What well-formed UTF-8 is: exactly the encodings of sequences of Unicode scalar values. */
module Utf8Text {
  import opened Common
  import opened Bcs

  /** Code points without the surrogates. */
  type Scalar = c: int | 0 <= c <= 0x10FFFF && !(0xD800 <= c <= 0xDFFF)

  function Utf8Of(c: Scalar): (bs: seq<byte>)
    ensures |bs| > 0
  {
    if c < 0x80 then [c]
    else if c < 0x800 then [0xC0 + c / 0x40, 0x80 + c % 0x40]
    else if c < 0x10000 then [0xE0 + c / 0x1000, 0x80 + c / 0x40 % 0x40, 0x80 + c % 0x40]
    else [0xF0 + c / 0x40000, 0x80 + c / 0x1000 % 0x40, 0x80 + c / 0x40 % 0x40, 0x80 + c % 0x40]
  }

  function Utf8OfAll(cs: seq<Scalar>): seq<byte> {
    if cs == [] then [] else Utf8Of(cs[0]) + Utf8OfAll(cs[1..])
  }

  lemma Utf8Cons(c: Scalar, rest: seq<byte>)
    ensures Utf8(Utf8Of(c) + rest) <==> Utf8(rest)
  {
    var s := Utf8Of(c) + rest;
    if c < 0x80 {
      assert s[1..] == rest;
    } else if c < 0x800 {
      assert s[2..] == rest;
    } else if c < 0x10000 {
      assert s[3..] == rest;
    } else {
      assert s[4..] == rest;
    }
  }

  lemma {:induction false} EncodedIsUtf8(cs: seq<Scalar>)
    ensures Utf8(Utf8OfAll(cs))
  {
    if cs == [] {
    } else {
      EncodedIsUtf8(cs[1..]);
      Utf8Cons(cs[0], Utf8OfAll(cs[1..]));
    }
  }

  lemma TwoBytes(x: int, y: int) returns (c: Scalar)
    requires 2 <= x < 32 && 0 <= y < 0x40
    ensures Utf8Of(c) == [0xC0 + x, 0x80 + y]
  {
    c := 0x40 * x + y;
  }

  lemma ThreeBytes(x: int, y: int, z: int) returns (c: Scalar)
    requires 0 <= x < 16 && 0 <= y < 0x40 && 0 <= z < 0x40
    requires (x == 0 ==> y >= 0x20) && (x == 0xD ==> y < 0x20)
    ensures Utf8Of(c) == [0xE0 + x, 0x80 + y, 0x80 + z]
  {
    c := 0x1000 * x + 0x40 * y + z;
    assert c / 0x40 == 0x40 * x + y && c % 0x40 == z;
    assert c / 0x1000 == x && (0x40 * x + y) % 0x40 == y;
  }

  lemma FourBytes(x: int, y: int, z: int, w: int) returns (c: Scalar)
    requires 0 <= x <= 4 && 0 <= y < 0x40 && 0 <= z < 0x40 && 0 <= w < 0x40
    requires (x == 0 ==> y >= 0x10) && (x == 4 ==> y < 0x10)
    ensures Utf8Of(c) == [0xF0 + x, 0x80 + y, 0x80 + z, 0x80 + w]
  {
    c := 0x40000 * x + 0x1000 * y + 0x40 * z + w;
    assert c / 0x40 == 0x1000 * x + 0x40 * y + z && c % 0x40 == w;
    assert c / 0x1000 == 0x40 * x + y && (0x1000 * x + 0x40 * y + z) % 0x40 == z;
    assert c / 0x40000 == x && (0x40 * x + y) % 0x40 == y;
  }

  /** The first scalar value of a well-formed string. */
  lemma FirstScalar(s: seq<byte>) returns (c: Scalar)
    requires Utf8(s) && s != []
    ensures Utf8Of(c) <= s
  {
    if s[0] < 0x80 {
      c := s[0];
    } else if s[0] <= 0xDF {
      c := TwoBytes(s[0] - 0xC0, s[1] - 0x80);
    } else if s[0] <= 0xEF {
      c := ThreeBytes(s[0] - 0xE0, s[1] - 0x80, s[2] - 0x80);
    } else {
      c := FourBytes(s[0] - 0xF0, s[1] - 0x80, s[2] - 0x80, s[3] - 0x80);
    }
  }

  lemma {:induction false} Scalars(s: seq<byte>) returns (cs: seq<Scalar>)
    requires Utf8(s)
    ensures Utf8OfAll(cs) == s
    decreases |s|
  {
    if s == [] {
      cs := [];
    } else {
      var c := FirstScalar(s);
      var rest := s[|Utf8Of(c)|..];
      assert s == Utf8Of(c) + rest;
      Utf8Cons(c, rest);
      var others := Scalars(rest);
      cs := [c] + others;
      assert cs[1..] == others;
    }
  }

  /** The check on identifiers accepts exactly the encodings of scalar values. */
  lemma Utf8Exact(s: seq<byte>)
    ensures Utf8(s) <==> exists cs :: Utf8OfAll(cs) == s
  {
    if Utf8(s) {
      var cs := Scalars(s);
    }
    if cs :| Utf8OfAll(cs) == s {
      EncodedIsUtf8(cs);
    }
  }
}
