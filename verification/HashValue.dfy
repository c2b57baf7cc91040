/** 256-bit hash values: bits, nibbles, the forward bit iterator, common prefixes and ordering. */
module HashValue {
  import opened Common

  const LENGTH: nat := 32
  const LENGTH_IN_BITS: nat := LENGTH * 8

  type Hash = h: seq<bv8> | |h| == LENGTH witness seq(LENGTH, _ => 0 as bv8)
  // ----- Bits of one byte, most significant first -----

  function ByteBit(b: bv8, k: nat): bool
    requires k < 8
  {
    (b >> (7 - k)) & 1 != 0
  }

  function SetBit(b: bv8, k: nat): bv8
    requires k < 8
  {
    b | (1 << (7 - k))
  }

  lemma SetBitEffect(b: bv8, k: nat, j: nat)
    requires k < 8 && j < 8
    ensures ByteBit(SetBit(b, k), j) == (j == k || ByteBit(b, j))
  {
    if k == 0 {} else if k == 1 {} else if k == 2 {} else if k == 3 {}
    else if k == 4 {} else if k == 5 {} else if k == 6 {} else {}
    if j == 0 {} else if j == 1 {} else if j == 2 {} else if j == 3 {}
    else if j == 4 {} else if j == 5 {} else if j == 6 {} else {}
  }

  lemma ByteFromBits(a: bv8, b: bv8)
    requires forall k :: 0 <= k < 8 ==> ByteBit(a, k) == ByteBit(b, k)
    ensures a == b
  {
    assert ByteBit(a, 0) == ByteBit(b, 0) && ByteBit(a, 1) == ByteBit(b, 1);
    assert ByteBit(a, 2) == ByteBit(b, 2) && ByteBit(a, 3) == ByteBit(b, 3);
    assert ByteBit(a, 4) == ByteBit(b, 4) && ByteBit(a, 5) == ByteBit(b, 5);
    assert ByteBit(a, 6) == ByteBit(b, 6) && ByteBit(a, 7) == ByteBit(b, 7);
  }

  lemma FirstBitOrdersBytes(a: bv8, b: bv8, k: nat)
    requires k < 8
    requires forall j :: 0 <= j < k ==> ByteBit(a, j) == ByteBit(b, j)
    requires !ByteBit(a, k) && ByteBit(b, k)
    ensures a < b
  {
    assert k > 0 ==> ByteBit(a, 0) == ByteBit(b, 0);
    assert k > 1 ==> ByteBit(a, 1) == ByteBit(b, 1);
    assert k > 2 ==> ByteBit(a, 2) == ByteBit(b, 2);
    assert k > 3 ==> ByteBit(a, 3) == ByteBit(b, 3);
    assert k > 4 ==> ByteBit(a, 4) == ByteBit(b, 4);
    assert k > 5 ==> ByteBit(a, 5) == ByteBit(b, 5);
    assert k > 6 ==> ByteBit(a, 6) == ByteBit(b, 6);
    if k == 0 {} else if k == 1 {} else if k == 2 {} else if k == 3 {}
    else if k == 4 {} else if k == 5 {} else if k == 6 {} else {}
  }

  // ----- Bits and nibbles of a hash -----

  function Bit(h: Hash, index: nat): bool
    requires index < LENGTH_IN_BITS
  {
    var pos := index / 8;
    var bit := 7 - index % 8;
    (h[pos] >> bit) & 1 != 0
  }

  function Nibble(h: Hash, index: nat): bv8
    requires index < LENGTH * 2
  {
    var pos := index / 2;
    var shift := if index % 2 == 0 then 4 else 0;
    (h[pos] >> shift) & 0x0f
  }

  function Bits(h: Hash): (s: seq<bool>)
    ensures |s| == LENGTH_IN_BITS
  {
    seq(LENGTH_IN_BITS, i requires 0 <= i < LENGTH_IN_BITS => Bit(h, i))
  }

  /** Four bits as a big-endian number. */
  function BigEndian(b0: bool, b1: bool, b2: bool, b3: bool): bv8 {
    (if b0 then 8 else 0) + (if b1 then 4 else 0) + (if b2 then 2 else 0) + (if b3 then 1 else 0)
  }

  function ByteFour(b: bv8, base: nat): bv8
    requires base <= 4
  {
    BigEndian(ByteBit(b, base), ByteBit(b, base + 1), ByteBit(b, base + 2), ByteBit(b, base + 3))
  }

  lemma ByteNibbles(b: bv8)
    ensures (b >> 4) & 0x0f == ByteFour(b, 0)
    ensures b & 0x0f == ByteFour(b, 4)
  {
  }

  function FourBitValue(h: Hash, start: nat): bv8
    requires start + 3 < LENGTH_IN_BITS
  {
    BigEndian(Bit(h, start), Bit(h, start + 1), Bit(h, start + 2), Bit(h, start + 3))
  }

  lemma NibbleOfByte(h: Hash, pos: nat)
    requires pos < LENGTH
    ensures Nibble(h, 2 * pos) == (h[pos] >> 4) & 0x0f
    ensures Nibble(h, 2 * pos + 1) == h[pos] & 0x0f
  {
    assert (2 * pos) / 2 == pos && (2 * pos + 1) / 2 == pos;
    assert h[pos] >> 0 == h[pos];
  }

  lemma EvenNibble(h: Hash, pos: nat)
    requires pos < LENGTH
    ensures Nibble(h, 2 * pos) == FourBitValue(h, 8 * pos)
  {
    HighFourBits(h, pos);
    ByteNibbles(h[pos]);
    NibbleOfByte(h, pos);
  }

  lemma OddNibble(h: Hash, pos: nat)
    requires pos < LENGTH
    ensures Nibble(h, 2 * pos + 1) == FourBitValue(h, 8 * pos + 4)
  {
    LowFourBits(h, pos);
    ByteNibbles(h[pos]);
    NibbleOfByte(h, pos);
  }

  /** Each nibble is the big-endian value of its four bits. */
  lemma NibbleIsFourBits(h: Hash, index: nat)
    requires index < LENGTH * 2
    ensures Nibble(h, index) == FourBitValue(h, 4 * index)
  {
    var pos := index / 2;
    if index % 2 == 0 {
      assert index == 2 * pos;
      EvenNibble(h, pos);
    } else {
      assert index == 2 * pos + 1;
      OddNibble(h, pos);
    }
  }

  lemma HighFourBits(h: Hash, pos: nat)
    requires pos < LENGTH
    ensures FourBitValue(h, 8 * pos) == ByteFour(h[pos], 0)
  {
    TwoBitsOfByte(h, pos, 0);
    TwoBitsOfByte(h, pos, 2);
  }

  lemma LowFourBits(h: Hash, pos: nat)
    requires pos < LENGTH
    ensures FourBitValue(h, 8 * pos + 4) == ByteFour(h[pos], 4)
  {
    TwoBitsOfByte(h, pos, 4);
    TwoBitsOfByte(h, pos, 6);
  }

  lemma TwoBitsOfByte(h: Hash, pos: nat, k: nat)
    requires pos < LENGTH && k < 7
    ensures Bit(h, 8 * pos + k) == ByteBit(h[pos], k)
    ensures Bit(h, 8 * pos + k + 1) == ByteBit(h[pos], k + 1)
  {
    BitOfByte(h, pos, k);
    BitOfByte(h, pos, k + 1);
  }

  lemma BitOfByte(h: Hash, pos: nat, k: nat)
    requires pos < LENGTH && k < 8
    ensures Bit(h, 8 * pos + k) == ByteBit(h[pos], k)
  {
    assert (8 * pos + k) / 8 == pos && (8 * pos + k) % 8 == k;
  }

  // ----- The forward iterator and its inverse -----

  class BitIterator {
    const hash: Hash
    var start: nat
    const end: nat

    ghost predicate Valid()
      reads this
    {
      end == LENGTH_IN_BITS && start <= end
    }

    constructor (h: Hash)
      ensures Valid() && hash == h && start == 0
    {
      hash, start, end := h, 0, LENGTH_IN_BITS;
    }

    method Next() returns (r: Option<bool>)
      requires Valid()
      modifies this
      ensures Valid()
      ensures old(start) == end ==> r == None && start == end
      ensures old(start) < end ==> r == Some(Bits(hash)[old(start)]) && start == old(start) + 1
    {
      if start < end {
        var index := start;
        start := start + 1;
        r := Some(Bit(hash, index));
      } else {
        r := None;
      }
    }
  }

  /** Draining a fresh iterator yields the bits in order. */
  method IterBits(h: Hash) returns (bits: seq<bool>)
    ensures bits == Bits(h)
  {
    var iter := new BitIterator(h);
    bits := [];
    var next := iter.Next();
    while next.Some?
      invariant iter.Valid() && iter.hash == h && fresh(iter)
      invariant next.Some? ==> iter.start == |bits| + 1 && next.value == Bits(h)[|bits|]
      invariant next.None? ==> iter.start == |bits| == iter.end
      invariant bits == Bits(h)[..|bits|]
      decreases iter.end - iter.start, next.Some?
    {
      bits := bits + [next.value];
      next := iter.Next();
    }
  }

  /** Accepts exactly 256 bits, and the hash it builds has those bits. */
  method FromBitIter(bits: seq<bool>) returns (r: Option<Hash>)
    ensures r.Some? <==> |bits| == 256
    ensures r.Some? ==> Bits(r.value) == bits
  {
    if |bits| != LENGTH_IN_BITS {
      return None;
    }
    var buf := new bv8[LENGTH](_ => 0);
    for i := 0 to LENGTH_IN_BITS
      invariant forall j :: 0 <= j < LENGTH_IN_BITS ==>
                  ByteBit(buf[j / 8], j % 8) == (j < i && bits[j])
    {
      if bits[i] {
        forall k | 0 <= k < 8
          ensures ByteBit(SetBit(buf[i / 8], i % 8), k) == (k == i % 8 || ByteBit(buf[i / 8], k))
        {
          SetBitEffect(buf[i / 8], i % 8, k);
        }
        buf[i / 8] := SetBit(buf[i / 8], i % 8);
      }
    }
    var h: Hash := buf[..];
    assert forall j :: 0 <= j < LENGTH_IN_BITS ==> Bits(h)[j] == ByteBit(buf[j / 8], j % 8);
    r := Some(h);
  }

  /** A hash is determined by its bits, so reading and building are mutual inverses. */
  lemma BitsInjective(a: Hash, b: Hash)
    requires Bits(a) == Bits(b)
    ensures a == b
  {
    forall pos | 0 <= pos < LENGTH
      ensures a[pos] == b[pos]
    {
      SameBitsSameByte(a, b, pos);
    }
  }

  lemma SameBitsSameByte(a: Hash, b: Hash, pos: nat)
    requires pos < LENGTH
    requires forall i :: 8 * pos <= i < 8 * pos + 8 ==> Bits(a)[i] == Bits(b)[i]
    ensures a[pos] == b[pos]
  {
    forall k | 0 <= k < 8
      ensures ByteBit(a[pos], k) == ByteBit(b[pos], k)
    {
      BitOfByte(a, pos, k);
      BitOfByte(b, pos, k);
      assert Bits(a)[8 * pos + k] == Bits(b)[8 * pos + k];
    }
    ByteFromBits(a[pos], b[pos]);
  }

  /** Rebuilding a hash from its own bits returns it. */
  method Rebuild(h: Hash) returns (r: Option<Hash>)
    ensures r == Some(h)
  {
    var bits := IterBits(h);
    r := FromBitIter(bits);
    BitsInjective(r.value, h);
  }

  // ----- Common prefixes -----

  /** `zip`, `take_while` equal, `count`. */
  function AgreeingPrefix(x: seq<bool>, y: seq<bool>): (n: nat)
    ensures n <= |x| && n <= |y|
  {
    if x == [] || y == [] || x[0] != y[0] then 0 else 1 + AgreeingPrefix(x[1..], y[1..])
  }

  function CommonPrefixBitsLen(a: Hash, b: Hash): nat {
    AgreeingPrefix(Bits(a), Bits(b))
  }

  /** The count is the length of the longest agreeing prefix. */
  lemma {:induction false} AgreeingPrefixExact(x: seq<bool>, y: seq<bool>, m: nat)
    ensures m <= AgreeingPrefix(x, y) <==> m <= |x| && m <= |y| && x[..m] == y[..m]
  {
    if m == 0 {
    } else if x == [] || y == [] {
    } else if x[0] != y[0] {
      assert m <= |x| && m <= |y| ==> x[..m][0] != y[..m][0];
    } else {
      AgreeingPrefixExact(x[1..], y[1..], m - 1);
      if m <= |x| && m <= |y| {
        assert x[..m] == [x[0]] + x[1..][..m - 1] && y[..m] == [y[0]] + y[1..][..m - 1];
        assert x[1..][..m - 1] == x[..m][1..] && y[1..][..m - 1] == y[..m][1..];
      }
    }
  }

  lemma FirstDifference(x: seq<bool>, y: seq<bool>)
    requires |x| == |y| && x != y
    ensures var n := AgreeingPrefix(x, y);
            n < |x| && x[n] != y[n] && x[..n] == y[..n]
  {
    var n := AgreeingPrefix(x, y);
    AgreeingPrefixExact(x, y, n);
    assert x[..|x|] == x && y[..|y|] == y;
    if n < |x| {
      assert x[..n + 1] == x[..n] + [x[n]] && y[..n + 1] == y[..n] + [y[n]];
      AgreeingPrefixExact(x, y, n + 1);
    }
  }

  lemma CommonPrefixFullIffEqual(a: Hash, b: Hash)
    ensures CommonPrefixBitsLen(a, b) == 256 <==> a == b
  {
    var x, y := Bits(a), Bits(b);
    AgreeingPrefixExact(x, y, LENGTH_IN_BITS);
    assert x[..LENGTH_IN_BITS] == x && y[..LENGTH_IN_BITS] == y;
    if x == y { BitsInjective(a, b); }
  }

  /** The common prefix length is an ultrametric closeness. */
  lemma CommonPrefixUltrametric(a: Hash, b: Hash, c: Hash)
    ensures CommonPrefixBitsLen(a, b) == CommonPrefixBitsLen(b, a)
    ensures var ab, bc := CommonPrefixBitsLen(a, b), CommonPrefixBitsLen(b, c);
            CommonPrefixBitsLen(a, c) >= if ab < bc then ab else bc
  {
    var x, y, z := Bits(a), Bits(b), Bits(c);
    var ab, ba, bc := AgreeingPrefix(x, y), AgreeingPrefix(y, x), AgreeingPrefix(y, z);
    AgreeingPrefixExact(x, y, ab);
    AgreeingPrefixExact(y, x, ab);
    AgreeingPrefixExact(y, x, ba);
    AgreeingPrefixExact(x, y, ba);
    var m := if ab < bc then ab else bc;
    AgreeingPrefixExact(x, y, m);
    AgreeingPrefixExact(y, z, m);
    AgreeingPrefixExact(x, z, m);
  }

  // ----- Ordering -----

  /** The derived byte-wise lexicographic order. */
  predicate LexLess(a: seq<bv8>, b: seq<bv8>) {
    if a == [] || b == [] then |a| < |b|
    else a[0] < b[0] || (a[0] == b[0] && LexLess(a[1..], b[1..]))
  }

  lemma {:induction false} LexDecidedAt(a: seq<bv8>, b: seq<bv8>, q: nat)
    requires q < |a| && q < |b| && a[..q] == b[..q] && a[q] != b[q]
    ensures LexLess(a, b) <==> a[q] < b[q]
  {
    if q == 0 {
    } else {
      assert a[0] == a[..q][0] && b[0] == b[..q][0];
      assert a[1..][..q - 1] == a[..q][1..] && b[1..][..q - 1] == b[..q][1..];
      LexDecidedAt(a[1..], b[1..], q - 1);
    }
  }

  /** Hashes that agree on the first `p` bits agree on the whole bytes among them. */
  lemma SamePrefixSameBytes(a: Hash, b: Hash, p: nat)
    requires p < LENGTH_IN_BITS && Bits(a)[..p] == Bits(b)[..p]
    ensures a[..p / 8] == b[..p / 8]
  {
    forall i | 0 <= i < p
      ensures Bits(a)[i] == Bits(b)[i]
    {
      assert Bits(a)[..p][i] == Bits(b)[..p][i];
    }
    forall pos | 0 <= pos < p / 8
      ensures a[pos] == b[pos]
    {
      SameBitsSameByte(a, b, pos);
    }
  }

  /** The byte holding the first differing bit is ordered by that bit. */
  lemma FirstByteOrdered(a: Hash, b: Hash, p: nat)
    requires p < LENGTH_IN_BITS && Bits(a)[..p] == Bits(b)[..p] && !Bits(a)[p] && Bits(b)[p]
    ensures a[p / 8] < b[p / 8]
  {
    var q, k := p / 8, p % 8;
    forall j | 0 <= j < k
      ensures ByteBit(a[q], j) == ByteBit(b[q], j)
    {
      BitOfByte(a, q, j);
      BitOfByte(b, q, j);
      assert Bits(a)[..p][8 * q + j] == Bits(b)[..p][8 * q + j];
    }
    BitOfByte(a, q, k);
    BitOfByte(b, q, k);
    FirstBitOrdersBytes(a[q], b[q], k);
  }

  /** For unequal hashes the derived order is decided by the first differing bit. */
  lemma OrderDecidedByFirstBit(a: Hash, b: Hash)
    requires a != b
    ensures var p := CommonPrefixBitsLen(a, b);
            p < 256 && (LexLess(a, b) <==> !Bits(a)[p] && Bits(b)[p])
  {
    if Bits(a) == Bits(b) { BitsInjective(a, b); }
    FirstDifference(Bits(a), Bits(b));
    var p := CommonPrefixBitsLen(a, b);
    SamePrefixSameBytes(a, b, p);
    if Bits(b)[p] {
      FirstByteOrdered(a, b, p);
    } else {
      FirstByteOrdered(b, a, p);
    }
    LexDecidedAt(a, b, p / 8);
  }
}
