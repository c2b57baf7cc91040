/** Type and struct tags of the version-five storage format: what their BCS bytes are, and what
    the depth-guarded writer and reader do with them. */
module TypeTags {
  import opened Common
  import opened Bcs

  const ADDRESS_LENGTH: nat := 16

  type Address = a: seq<byte> | |a| == ADDRESS_LENGTH witness seq(ADDRESS_LENGTH, _ => 0)
  type Identifier = Utf8Bytes

  datatype TypeTag =
    | Bool | U8 | U64 | U128 | Address | Signer
    | Vector(elem: TypeTag)
    | Struct(tag: StructTag)

  datatype StructTag =
    StructTag(address: Address, moduleName: Identifier, name: Identifier, typeParams: seq<TypeTag>)

  datatype ModuleId = ModuleId(address: Address, name: Identifier)

  // ----- Structure of tags -----

  /** How many guarded levels (`Vector` or `Struct`) the deepest path crosses. */
  function Nesting(t: TypeTag): nat
    decreases t
  {
    match t
    case Vector(e) => 1 + Nesting(e)
    case Struct(s) => 1 + NestingAll(s.typeParams)
    case _ => 0
  }

  function NestingAll(ts: seq<TypeTag>): nat
    decreases ts
  {
    if ts == [] then 0
    else
      var first, others := Nesting(ts[0]), NestingAll(ts[1..]);
      if first > others then first else others
  }

  /** Every name and parameter list is short enough for BCS. */
  predicate Sized(t: TypeTag)
    decreases t
  {
    match t
    case Vector(e) => Sized(e)
    case Struct(s) => SizedStruct(s)
    case _ => true
  }

  predicate SizedStruct(s: StructTag)
    decreases s
  {
    && SizedHeader(HeaderOf(s))
    && SizedAll(s.typeParams)
  }

  predicate SizedAll(ts: seq<TypeTag>)
    decreases ts
  {
    ts == [] || (Sized(ts[0]) && SizedAll(ts[1..]))
  }

  /** A tag of nesting `n` met at depth `d` stays within `limit`. */
  predicate Within(n: nat, d: nat, limit: nat) {
    n == 0 || d + n <= limit
  }

  // ----- The bytes of a tag -----

  function Index(t: TypeTag): (i: nat)
    ensures i < 8
  {
    match t
    case Bool => 0 case U8 => 1 case U64 => 2 case U128 => 3
    case Address => 4 case Signer => 5 case Vector(_) => 6 case Struct(_) => 7
  }

  function Encoding(t: TypeTag): (bs: seq<byte>)
    ensures |bs| > 0
    decreases t
  {
    match t
    case Vector(e) => [6] + Encoding(e)
    case Struct(s) => [7] + EncodingOfStruct(s)
    case _ => [Index(t)]
  }

  /** Everything in a struct tag up to its type parameters. */
  datatype Header = Header(address: Address, moduleName: Identifier, name: Identifier, count: nat)

  function HeaderOf(s: StructTag): Header {
    Header(s.address, s.moduleName, s.name, |s.typeParams|)
  }

  predicate SizedHeader(h: Header) {
    && |h.moduleName| <= MAX_SEQUENCE_LENGTH
    && |h.name| <= MAX_SEQUENCE_LENGTH
    && h.count <= MAX_SEQUENCE_LENGTH
  }

  function EncodingOfHeader(h: Header): seq<byte> {
    h.address + WriteBytes(h.moduleName) + WriteBytes(h.name) + WriteUleb(h.count)
  }

  function EncodingOfStruct(s: StructTag): seq<byte>
    decreases s
  {
    EncodingOfHeader(HeaderOf(s)) + EncodingOfAll(s.typeParams)
  }

  function EncodingOfAll(ts: seq<TypeTag>): seq<byte>
    decreases ts
  {
    if ts == [] then [] else Encoding(ts[0]) + EncodingOfAll(ts[1..])
  }

  function EncodingOfModule(m: ModuleId): seq<byte> {
    m.address + WriteBytes(m.name)
  }

  /** The variant numbers follow the order of declaration. */
  lemma VariantNumbers(e: TypeTag, s: StructTag)
    ensures Encoding(Bool) == [0] && Encoding(U8) == [1] && Encoding(U64) == [2] && Encoding(U128) == [3]
    ensures Encoding(TypeTag.Address) == [4] && Encoding(Signer) == [5]
    ensures Encoding(Vector(e)) == [6] + Encoding(e)
    ensures Encoding(Struct(s)) == [7] + EncodingOfStruct(s)
    ensures Encoding(Vector(U8)) == [6, 1]
  {
    assert Encoding(Vector(U8)) == [6] + Encoding(U8);
  }

  // ----- What the guarded writer does -----

  const MAX_TYPE_TAG_NESTING: nat := 9
  const MAX_READ_NESTING: nat := MAX_TYPE_TAG_NESTING - 1

  function Write(t: TypeTag, d: nat): Result<seq<byte>>
    decreases t
  {
    match t
    case Vector(e) =>
      if d >= MAX_TYPE_TAG_NESTING then Err(NestingExceeded) else
      var inner :- Write(e, d + 1);
      Ok([6] + inner)
    case Struct(s) =>
      if d >= MAX_TYPE_TAG_NESTING then Err(NestingExceeded) else
      var inner :- WriteStruct(s, d + 1);
      Ok([7] + inner)
    case _ => Ok([Index(t)])
  }

  function WriteStruct(s: StructTag, d: nat): Result<seq<byte>>
    decreases s
  {
    if |s.moduleName| > MAX_SEQUENCE_LENGTH then Err(ExceededMaxLen) else
    if |s.name| > MAX_SEQUENCE_LENGTH then Err(ExceededMaxLen) else
    if |s.typeParams| > MAX_SEQUENCE_LENGTH then Err(ExceededMaxLen) else
    var params :- WriteAll(s.typeParams, d);
    Ok(EncodingOfHeader(HeaderOf(s)) + params)
  }

  function WriteAll(ts: seq<TypeTag>, d: nat): Result<seq<byte>>
    decreases ts
  {
    if ts == [] then Ok([]) else
    var first :- Write(ts[0], d);
    var others :- WriteAll(ts[1..], d);
    Ok(first + others)
  }

  /** From any depth, writing succeeds exactly when the tag fits under the limit, and then
      produces the tag's bytes. */
  lemma {:induction false} WriteExact(t: TypeTag, d: nat)
    ensures Write(t, d).Ok? <==> Sized(t) && Within(Nesting(t), d, 9)
    ensures Write(t, d).Ok? ==> Write(t, d).value == Encoding(t)
    decreases t
  {
    match t
    case Vector(e) => WriteExact(e, d + 1);
    case Struct(s) => WriteStructExact(s, d + 1);
    case _ =>
  }

  lemma {:induction false} WriteStructExact(s: StructTag, d: nat)
    ensures WriteStruct(s, d).Ok? <==>
            SizedStruct(s) && Within(NestingAll(s.typeParams), d, 9)
    ensures WriteStruct(s, d).Ok? ==> WriteStruct(s, d).value == EncodingOfStruct(s)
    decreases s
  {
    WriteAllExact(s.typeParams, d);
  }

  lemma {:induction false} WriteAllExact(ts: seq<TypeTag>, d: nat)
    ensures WriteAll(ts, d).Ok? <==> SizedAll(ts) && Within(NestingAll(ts), d, 9)
    ensures WriteAll(ts, d).Ok? ==> WriteAll(ts, d).value == EncodingOfAll(ts)
    decreases ts
  {
    if ts == [] {
    } else {
      WriteExact(ts[0], d);
      WriteAllExact(ts[1..], d);
    }
  }

  // ----- What the guarded reader does, for any limit -----

  function Read(bs: seq<byte>, d: nat, limit: nat): (r: Parsed<TypeTag>)
    ensures r.Done? ==> |r.rest| < |bs|
    decreases |bs|, 0
  {
    match ReadUleb(bs)
    case Fail(e) => Fail(e)
    case Done(index, rest) =>
      match index
      case 0 => Done(Bool, rest)
      case 1 => Done(U8, rest)
      case 2 => Done(U64, rest)
      case 3 => Done(U128, rest)
      case 4 => Done(TypeTag.Address, rest)
      case 5 => Done(Signer, rest)
      case 6 =>
        if d >= limit then Fail(NestingExceeded) else
        (match Read(rest, d + 1, limit)
         case Done(e, tail) => Done(Vector(e), tail)
         case Fail(e) => Fail(e))
      case 7 =>
        if d >= limit then Fail(NestingExceeded) else
        (match ReadStruct(rest, d + 1, limit)
         case Done(s, tail) => Done(Struct(s), tail)
         case Fail(e) => Fail(e))
      case _ => Fail(UnknownVariant)
  }

  function ReadHeader(bs: seq<byte>): (r: Parsed<Header>)
    ensures r.Done? ==> |r.rest| < |bs|
  {
    match ReadFixed(bs, ADDRESS_LENGTH)
    case Fail(e) => Fail(e)
    case Done(address, rest0) =>
      match ReadString(rest0)
      case Fail(e) => Fail(e)
      case Done(moduleName, rest1) =>
        match ReadString(rest1)
        case Fail(e) => Fail(e)
        case Done(name, rest2) =>
          match ReadLength(rest2)
          case Fail(e) => Fail(e)
          case Done(count, rest3) => Done(Header(address, moduleName, name, count), rest3)
  }

  lemma HeaderRoundTrip(h: Header, rest: seq<byte>)
    requires SizedHeader(h)
    ensures ReadHeader(EncodingOfHeader(h) + rest) == Done(h, rest)
  {
    var tail2 := WriteUleb(h.count) + rest;
    var tail1 := WriteBytes(h.name) + tail2;
    var tail0 := WriteBytes(h.moduleName) + tail1;
    var bs := EncodingOfHeader(h) + rest;
    assert bs == h.address + tail0;
    assert bs[..ADDRESS_LENGTH] == h.address && bs[ADDRESS_LENGTH..] == tail0;
    BytesRoundTrip(h.moduleName, tail1);
    BytesRoundTrip(h.name, tail2);
    UlebRoundTrip(h.count, rest);
  }

  lemma HeaderCanonical(bs: seq<byte>)
    requires ReadHeader(bs).Done?
    ensures var r := ReadHeader(bs);
            SizedHeader(r.value) && bs == EncodingOfHeader(r.value) + r.rest
  {
    var rest0 := bs[ADDRESS_LENGTH..];
    BytesCanonical(rest0);
    var rest1 := ReadString(rest0).rest;
    BytesCanonical(rest1);
    var rest2 := ReadString(rest1).rest;
    UlebCanonical(rest2);
    var Done(h, rest3) := ReadHeader(bs);
    calc {
      bs;
      h.address + rest0;
      { Assoc(h.address, WriteBytes(h.moduleName), rest1); }
      h.address + WriteBytes(h.moduleName) + rest1;
      { Assoc(h.address + WriteBytes(h.moduleName), WriteBytes(h.name), rest2); }
      h.address + WriteBytes(h.moduleName) + WriteBytes(h.name) + rest2;
      { Assoc(h.address + WriteBytes(h.moduleName) + WriteBytes(h.name), WriteUleb(h.count), rest3); }
      EncodingOfHeader(h) + rest3;
    }
  }

  function ReadStruct(bs: seq<byte>, d: nat, limit: nat): (r: Parsed<StructTag>)
    ensures r.Done? ==> |r.rest| < |bs|
    decreases |bs|, 0
  {
    match ReadHeader(bs)
    case Fail(e) => Fail(e)
    case Done(h, rest) =>
      match ReadAll(rest, h.count, d, limit)
      case Fail(e) => Fail(e)
      case Done(params, tail) => Done(StructTag(h.address, h.moduleName, h.name, params), tail)
  }

  function ReadAll(bs: seq<byte>, count: nat, d: nat, limit: nat): (r: Parsed<seq<TypeTag>>)
    ensures r.Done? ==> |r.rest| <= |bs| && |r.value| == count
    decreases |bs|, 1
  {
    if count == 0 then Done([], bs) else
    match Read(bs, d, limit)
    case Fail(e) => Fail(e)
    case Done(first, rest) =>
      match ReadAll(rest, count - 1, d, limit)
      case Fail(e) => Fail(e)
      case Done(others, tail) => Done([first] + others, tail)
  }

  /** The bytes of a tag that fits, followed by anything, read back as that tag and that suffix. */
  lemma {:induction false} ReadInvertsEncoding(t: TypeTag, rest: seq<byte>, d: nat, limit: nat)
    requires Sized(t) && Within(Nesting(t), d, limit)
    ensures Read(Encoding(t) + rest, d, limit) == Done(t, rest)
    decreases t
  {
    IndexRoundTrip(t, rest);
    match t
    case Vector(e) => ReadInvertsEncoding(e, rest, d + 1, limit);
    case Struct(s) => ReadStructInvertsEncoding(s, rest, d + 1, limit);
    case _ =>
  }

  lemma IndexRoundTrip(t: TypeTag, rest: seq<byte>)
    ensures ReadUleb(Encoding(t) + rest) ==
            Done(Index(t), match t case Vector(e) => Encoding(e) + rest
                                   case Struct(s) => EncodingOfStruct(s) + rest
                                   case _ => rest)
  {
    match t
    case Vector(e) =>
      Assoc([6], Encoding(e), rest);
      UlebRoundTrip(6, Encoding(e) + rest);
    case Struct(s) =>
      Assoc([7], EncodingOfStruct(s), rest);
      UlebRoundTrip(7, EncodingOfStruct(s) + rest);
    case _ =>
      UlebRoundTrip(Index(t), rest);
  }

  lemma {:induction false} ReadStructInvertsEncoding(s: StructTag, rest: seq<byte>, d: nat, limit: nat)
    requires SizedStruct(s) && Within(NestingAll(s.typeParams), d, limit)
    ensures ReadStruct(EncodingOfStruct(s) + rest, d, limit) == Done(s, rest)
    decreases s
  {
    var params := EncodingOfAll(s.typeParams) + rest;
    assert EncodingOfStruct(s) + rest == EncodingOfHeader(HeaderOf(s)) + params;
    HeaderRoundTrip(HeaderOf(s), params);
    ReadAllInvertsEncoding(s.typeParams, rest, d, limit);
  }

  lemma {:induction false} ReadAllInvertsEncoding(ts: seq<TypeTag>, rest: seq<byte>, d: nat, limit: nat)
    requires SizedAll(ts) && Within(NestingAll(ts), d, limit)
    ensures ReadAll(EncodingOfAll(ts) + rest, |ts|, d, limit) == Done(ts, rest)
    decreases ts
  {
    if ts == [] {
      assert EncodingOfAll(ts) + rest == rest;
    } else {
      assert EncodingOfAll(ts) + rest == Encoding(ts[0]) + (EncodingOfAll(ts[1..]) + rest);
      ReadInvertsEncoding(ts[0], EncodingOfAll(ts[1..]) + rest, d, limit);
      ReadAllInvertsEncoding(ts[1..], rest, d, limit);
      assert ts == [ts[0]] + ts[1..];
    }
  }

  /** Whatever the reader accepts is the canonical encoding of a tag that fits. */
  lemma {:induction false} ReadIsCanonical(bs: seq<byte>, d: nat, limit: nat)
    requires Read(bs, d, limit).Done?
    ensures var r := Read(bs, d, limit);
            && bs == Encoding(r.value) + r.rest
            && Sized(r.value) && Within(Nesting(r.value), d, limit)
    decreases |bs|, 0
  {
    UlebCanonical(bs);
    var Done(index, rest) := ReadUleb(bs);
    assert index < 8;
    assert WriteUleb(index) == [index];
    if index == 6 {
      ReadIsCanonical(rest, d + 1, limit);
      var Done(e, tail) := Read(rest, d + 1, limit);
      assert Encoding(Vector(e)) == [6] + Encoding(e);
      Assoc([6], Encoding(e), tail);
    } else if index == 7 {
      ReadStructIsCanonical(rest, d + 1, limit);
      var Done(s, tail) := ReadStruct(rest, d + 1, limit);
      assert Encoding(Struct(s)) == [7] + EncodingOfStruct(s);
      Assoc([7], EncodingOfStruct(s), tail);
    } else {
      PrimitiveIsCanonical(bs, d, limit);
    }
  }

  lemma PrimitiveIsCanonical(bs: seq<byte>, d: nat, limit: nat)
    requires Read(bs, d, limit).Done? && ReadUleb(bs).value < 6
    requires bs == [ReadUleb(bs).value] + ReadUleb(bs).rest
    ensures var r := Read(bs, d, limit);
            bs == Encoding(r.value) + r.rest && Sized(r.value) && Nesting(r.value) == 0
  {
    assert Encoding(Read(bs, d, limit).value) == [ReadUleb(bs).value];
  }

  lemma {:induction false} ReadStructIsCanonical(bs: seq<byte>, d: nat, limit: nat)
    requires ReadStruct(bs, d, limit).Done?
    ensures var r := ReadStruct(bs, d, limit);
            && bs == EncodingOfStruct(r.value) + r.rest
            && SizedStruct(r.value) && Within(NestingAll(r.value.typeParams), d, limit)
    decreases |bs|, 0
  {
    HeaderCanonical(bs);
    var Done(h, rest) := ReadHeader(bs);
    ReadAllIsCanonical(rest, h.count, d, limit);
    var Done(s, tail) := ReadStruct(bs, d, limit);
    assert HeaderOf(s) == h;
    Assoc(EncodingOfHeader(h), EncodingOfAll(s.typeParams), tail);
  }

  lemma {:induction false} ReadAllIsCanonical(bs: seq<byte>, count: nat, d: nat, limit: nat)
    requires ReadAll(bs, count, d, limit).Done?
    ensures var r := ReadAll(bs, count, d, limit);
            && bs == EncodingOfAll(r.value) + r.rest
            && SizedAll(r.value) && Within(NestingAll(r.value), d, limit)
    decreases |bs|, 1
  {
    if count == 0 {
    } else {
      ReadIsCanonical(bs, d, limit);
      var Done(first, rest) := Read(bs, d, limit);
      ReadAllIsCanonical(rest, count - 1, d, limit);
      var Done(others, tail) := ReadAll(rest, count - 1, d, limit);
      var all := [first] + others;
      assert all[0] == first && all[1..] == others;
      Assoc(Encoding(first), EncodingOfAll(others), tail);
    }
  }

  // ----- Main results -----

  /** Exact behaviour of the reader on every input, at every depth and limit. */
  lemma ReadExact(bs: seq<byte>, t: TypeTag, rest: seq<byte>, d: nat, limit: nat)
    ensures Read(bs, d, limit) == Done(t, rest) <==>
            Sized(t) && Within(Nesting(t), d, limit) && bs == Encoding(t) + rest
  {
    if Read(bs, d, limit) == Done(t, rest) {
      ReadIsCanonical(bs, d, limit);
    }
    if Sized(t) && Within(Nesting(t), d, limit) && bs == Encoding(t) + rest {
      ReadInvertsEncoding(t, rest, d, limit);
    }
  }

  lemma ReadStructExact(bs: seq<byte>, s: StructTag, rest: seq<byte>, d: nat, limit: nat)
    ensures ReadStruct(bs, d, limit) == Done(s, rest) <==>
            SizedStruct(s) && Within(NestingAll(s.typeParams), d, limit) && bs == EncodingOfStruct(s) + rest
  {
    if ReadStruct(bs, d, limit) == Done(s, rest) {
      ReadStructIsCanonical(bs, d, limit);
    }
    if SizedStruct(s) && Within(NestingAll(s.typeParams), d, limit) && bs == EncodingOfStruct(s) + rest {
      ReadStructInvertsEncoding(s, rest, d, limit);
    }
  }

  /** No tag's bytes are a prefix of another's, at any nesting. */
  lemma EncodingUnique(t: TypeTag, rest: seq<byte>, t': TypeTag, rest': seq<byte>)
    requires Sized(t) && Sized(t')
    requires Encoding(t) + rest == Encoding(t') + rest'
    ensures t == t' && rest == rest'
  {
    var limit := Nesting(t) + Nesting(t');
    ReadInvertsEncoding(t, rest, 0, limit);
    ReadInvertsEncoding(t', rest', 0, limit);
  }

  lemma StructEncodingUnique(s: StructTag, rest: seq<byte>, s': StructTag, rest': seq<byte>)
    requires SizedStruct(s) && SizedStruct(s')
    requires EncodingOfStruct(s) + rest == EncodingOfStruct(s') + rest'
    ensures s == s' && rest == rest'
  {
    var limit := NestingAll(s.typeParams) + NestingAll(s'.typeParams);
    ReadStructInvertsEncoding(s, rest, 0, limit);
    ReadStructInvertsEncoding(s', rest', 0, limit);
  }

  /** Written bytes are readable from the same depth exactly when the tag is one level below the
      writer's limit (or crosses no guard); a tag that just fits the writer is rejected. */
  lemma WrittenReadsBack(t: TypeTag, d: nat, rest: seq<byte>)
    requires Write(t, d).Ok?
    ensures var r := Read(Write(t, d).value + rest, d, MAX_READ_NESTING);
            && (r == Done(t, rest) <==> Within(Nesting(t), d, 8))
            && (r.Fail? <==> Nesting(t) > 0 && d + Nesting(t) == 9)
  {
    WriteExact(t, d);
    var bs := Encoding(t) + rest;
    ReadExact(bs, t, rest, d, MAX_READ_NESTING);
    if Read(bs, d, MAX_READ_NESTING).Done? {
      ReadIsCanonical(bs, d, MAX_READ_NESTING);
      var Done(t', rest') := Read(bs, d, MAX_READ_NESTING);
      EncodingUnique(t, rest, t', rest');
    }
  }

  /** The same for struct tags, where the outermost level is not guarded. */
  lemma WrittenStructReadsBack(s: StructTag, d: nat, rest: seq<byte>)
    requires WriteStruct(s, d).Ok?
    ensures var n := NestingAll(s.typeParams);
            var r := ReadStruct(WriteStruct(s, d).value + rest, d, MAX_READ_NESTING);
            && (r == Done(s, rest) <==> Within(n, d, 8))
            && (r.Fail? <==> n > 0 && d + n == 9)
  {
    WriteStructExact(s, d);
    var bs := EncodingOfStruct(s) + rest;
    ReadStructExact(bs, s, rest, d, MAX_READ_NESTING);
    if ReadStruct(bs, d, MAX_READ_NESTING).Done? {
      ReadStructIsCanonical(bs, d, MAX_READ_NESTING);
      var Done(s', rest') := ReadStruct(bs, d, MAX_READ_NESTING);
      StructEncodingUnique(s, rest, s', rest');
    }
  }
}
