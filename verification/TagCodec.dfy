/** The tag serializer and deserializer as they run: one thread-local nesting counter, incremented
    and decremented around every guarded level, an output buffer and an input cursor. */
module TagCodec {
  import opened Common
  import opened Bcs
  import opened TypeTags

  type u8 = x: int | 0 <= x < 256

  datatype Request = Encode(tag: StructTag) | Decode(bytes: seq<byte>)
  datatype Reply = Encoded(written: Result<seq<byte>>) | Decoded(tag: Result<StructTag>)

  function FromBytesSpec(bs: seq<byte>): Result<StructTag> {
    match ReadStruct(bs, 0, MAX_READ_NESTING)
    case Fail(e) => Err(e)
    case Done(s, rest) => if rest == [] then Ok(s) else Err(RemainingInput)
  }

  /** What a fresh thread answers. */
  function Answer(q: Request): Reply {
    match q
    case Encode(s) => Encoded(WriteStruct(s, 0))
    case Decode(bs) => Decoded(FromBytesSpec(bs))
  }

  /** Puts what a loop has already produced in front of what is still to come. */
  ghost function Onto<T>(done: seq<T>, r: Result<seq<T>>): Result<seq<T>> {
    if r.Ok? then Ok(done + r.value) else r
  }

  lemma OntoLaws<T>(a: seq<T>, b: seq<T>, r: Result<seq<T>>)
    ensures Onto([], r) == r
    ensures Onto(a, Onto(b, r)) == Onto(a + b, r)
    ensures r == Ok([]) ==> Onto(a, r) == Ok(a)
  {
    if r.Ok? {
      assert [] + r.value == r.value;
      Assoc(a, b, r.value);
      assert a + [] == a;
    }
  }

  /** The same for a reader. */
  ghost function Before<T>(done: seq<T>, r: Parsed<seq<T>>): Parsed<seq<T>> {
    if r.Done? then Done(done + r.value, r.rest) else r
  }

  lemma BeforeLaws<T>(a: seq<T>, b: seq<T>, r: Parsed<seq<T>>)
    ensures Before([], r) == r
    ensures Before(a, Before(b, r)) == Before(a + b, r)
  {
    if r.Done? {
      assert [] + r.value == r.value;
      Assoc(a, b, r.value);
    }
  }

  /** Reading one tag of several: the others follow, or its failure is the failure of all. */
  lemma ReadAllStep(bs: seq<byte>, count: nat, d: nat, limit: nat)
    requires count > 0
    ensures var r := Read(bs, d, limit);
            ReadAll(bs, count, d, limit) ==
            if r.Done? then Before([r.value], ReadAll(r.rest, count - 1, d, limit)) else Fail(r.error)
  {
  }

  class CodecThread {
    var depth: u8
    var output: seq<byte>
    var input: seq<byte>
    ghost var peak: nat  // the highest value the counter ever had

    constructor ()
      ensures depth == 0 && peak == 0 && output == [] && input == []
    {
      depth, output, input, peak := 0, [], [], 0;
    }

    /** The counter stays where it was and never passed the writer's limit on the way. */
    twostate predicate Balanced()
      reads this
    {
      && depth == old(depth)
      && old(peak) <= peak
      && (peak == old(peak) || peak <= 9)
    }

    method Enter(limit: nat) returns (entered: bool)
      requires limit <= MAX_TYPE_TAG_NESTING
      modifies this`depth, this`peak
      ensures entered <==> old(depth) < limit
      ensures depth == old(depth) + if entered then 1 else 0
      ensures peak == if entered && depth > old(peak) then depth else old(peak)
    {
      entered := depth < limit;
      if entered {
        depth := depth + 1;
        peak := if depth > peak then depth else peak;
      }
    }

    method Leave()
      requires depth > 0
      modifies this`depth
      ensures depth == old(depth) - 1
    {
      depth := depth - 1;
    }

    // ----- Writing -----

    method SerializeType(t: TypeTag) returns (r: Result<()>)
      modifies this`depth, this`output, this`peak
      ensures Balanced()
      ensures match Write(t, old(depth))
              case Ok(bs) => r == Ok(()) && output == old(output) + bs
              case Err(e) => r == Err(e)
      decreases t
    {
      output := output + [Index(t)];
      match t
      case Vector(e) =>
        var entered := Enter(MAX_TYPE_TAG_NESTING);
        if !entered { return Err(NestingExceeded); }
        r := SerializeType(e);
        Leave();
      case Struct(s) =>
        var entered := Enter(MAX_TYPE_TAG_NESTING);
        if !entered { return Err(NestingExceeded); }
        r := SerializeStruct(s);
        Leave();
      case _ =>
        r := Ok(());
    }

    method SerializeStruct(s: StructTag) returns (r: Result<()>)
      modifies this`depth, this`output, this`peak
      ensures Balanced()
      ensures match WriteStruct(s, old(depth))
              case Ok(bs) => r == Ok(()) && output == old(output) + bs
              case Err(e) => r == Err(e)
      decreases s
    {
      output := output + s.address;
      if |s.moduleName| > MAX_SEQUENCE_LENGTH { return Err(ExceededMaxLen); }
      output := output + WriteBytes(s.moduleName);
      if |s.name| > MAX_SEQUENCE_LENGTH { return Err(ExceededMaxLen); }
      output := output + WriteBytes(s.name);
      if |s.typeParams| > MAX_SEQUENCE_LENGTH { return Err(ExceededMaxLen); }
      output := output + WriteUleb(|s.typeParams|);
      assert output == old(output) + EncodingOfHeader(HeaderOf(s));
      r := SerializeAll(s.typeParams);
    }

    method SerializeAll(ts: seq<TypeTag>) returns (r: Result<()>)
      modifies this`depth, this`output, this`peak
      ensures Balanced()
      ensures match WriteAll(ts, old(depth))
              case Ok(bs) => r == Ok(()) && output == old(output) + bs
              case Err(e) => r == Err(e)
      decreases ts
    {
      ghost var d := depth;
      ghost var done: seq<byte> := [];
      assert ts[0..] == ts;
      OntoLaws(done, done, WriteAll(ts, d));
      for i := 0 to |ts|
        invariant Balanced()
        invariant output == old(output) + done
        invariant WriteAll(ts, d) == Onto(done, WriteAll(ts[i..], d))
      {
        assert ts[i..][0] == ts[i] && ts[i..][1..] == ts[i + 1..];
        r := SerializeType(ts[i]);
        if r.Err? { return; }
        ghost var bs := Write(ts[i], d).value;
        OntoLaws(done, bs, WriteAll(ts[i + 1..], d));
        Assoc(old(output), done, bs);
        done := done + bs;
      }
      OntoLaws(done, [], WriteAll(ts[|ts|..], d));
      r := Ok(());
    }

    // ----- Reading -----

    method DeserializeType() returns (r: Result<TypeTag>)
      modifies this`depth, this`input, this`peak
      ensures Balanced()
      ensures match Read(old(input), old(depth), MAX_READ_NESTING)
              case Done(t, rest) => r == Ok(t) && input == rest
              case Fail(e) => r == Err(e)
      decreases |input|, 0
    {
      var index := ReadUleb(input);
      if index.Fail? { return Err(index.error); }
      input := index.rest;
      match index.value
      case 0 => return Ok(Bool);
      case 1 => return Ok(U8);
      case 2 => return Ok(U64);
      case 3 => return Ok(U128);
      case 4 => return Ok(TypeTag.Address);
      case 5 => return Ok(Signer);
      case 6 =>
        var e := GuardedType();
        r := if e.Ok? then Ok(Vector(e.value)) else Err(e.error);
      case 7 =>
        var s := GuardedStruct();
        r := if s.Ok? then Ok(Struct(s.value)) else Err(s.error);
      case _ =>
        r := Err(UnknownVariant);
    }

    /** The guard around the element of a vector. */
    method GuardedType() returns (r: Result<TypeTag>)
      modifies this`depth, this`input, this`peak
      ensures Balanced()
      ensures old(depth) >= MAX_READ_NESTING ==> r == Err(NestingExceeded)
      ensures old(depth) < MAX_READ_NESTING ==>
                match Read(old(input), old(depth) + 1, MAX_READ_NESTING)
                case Done(t, rest) => r == Ok(t) && input == rest
                case Fail(e) => r == Err(e)
      decreases |input|, 1
    {
      var entered := Enter(MAX_READ_NESTING);
      if !entered { return Err(NestingExceeded); }
      r := DeserializeType();
      Leave();
    }

    /** The guard around a struct. */
    method GuardedStruct() returns (r: Result<StructTag>)
      modifies this`depth, this`input, this`peak
      ensures Balanced()
      ensures old(depth) >= MAX_READ_NESTING ==> r == Err(NestingExceeded)
      ensures old(depth) < MAX_READ_NESTING ==>
                match ReadStruct(old(input), old(depth) + 1, MAX_READ_NESTING)
                case Done(s, rest) => r == Ok(s) && input == rest
                case Fail(e) => r == Err(e)
      decreases |input|, 1
    {
      var entered := Enter(MAX_READ_NESTING);
      if !entered { return Err(NestingExceeded); }
      r := DeserializeStruct();
      Leave();
    }

    method DeserializeStruct() returns (r: Result<StructTag>)
      modifies this`depth, this`input, this`peak
      ensures Balanced()
      ensures match ReadStruct(old(input), old(depth), MAX_READ_NESTING)
              case Done(s, rest) => r == Ok(s) && input == rest
              case Fail(e) => r == Err(e)
      decreases |input|, 0
    {
      var header := ReadHeader(input);
      if header.Fail? { return Err(header.error); }
      input := header.rest;
      var h := header.value;
      var params := DeserializeAll(h.count);
      r := if params.Ok? then Ok(StructTag(h.address, h.moduleName, h.name, params.value))
      else Err(params.error);
    }

    /** One more tag of a list of which `tags` are read and `left` are to come. */
    method DeserializeNext(tags: seq<TypeTag>, ghost left: nat, ghost all: Parsed<seq<TypeTag>>)
      returns (r: Result<seq<TypeTag>>)
      requires left > 0 && all == Before(tags, ReadAll(input, left, depth, MAX_READ_NESTING))
      modifies this`depth, this`input, this`peak
      ensures Balanced()
      ensures r.Ok? ==> |input| < |old(input)|
      ensures r.Ok? ==> all == Before(r.value, ReadAll(input, left - 1, depth, MAX_READ_NESTING))
      ensures r.Err? ==> all == Fail(r.error)
      decreases |input|, 1
    {
      ReadAllStep(input, left, depth, MAX_READ_NESTING);
      var t := DeserializeType();
      if t.Err? { return Err(t.error); }
      BeforeLaws(tags, [t.value], ReadAll(input, left - 1, depth, MAX_READ_NESTING));
      r := Ok(tags + [t.value]);
    }

    method DeserializeAll(count: nat) returns (r: Result<seq<TypeTag>>)
      modifies this`depth, this`input, this`peak
      ensures Balanced()
      ensures match ReadAll(old(input), count, old(depth), MAX_READ_NESTING)
              case Done(ts, rest) => r == Ok(ts) && input == rest
              case Fail(e) => r == Err(e)
      decreases |input|, 2
    {
      ghost var all := ReadAll(input, count, depth, MAX_READ_NESTING);
      var tags: seq<TypeTag> := [];
      BeforeLaws(tags, tags, all);
      for i := 0 to count
        invariant Balanced()
        invariant |input| <= |old(input)|
        invariant all == Before(tags, ReadAll(input, count - i, depth, MAX_READ_NESTING))
      {
        var next := DeserializeNext(tags, count - i, all);
        if next.Err? { return next; }
        tags := next.value;
      }
      assert tags + [] == tags;
      r := Ok(tags);
    }

    // ----- Whole requests -----

    method ToBytes(s: StructTag) returns (r: Result<seq<byte>>)
      requires depth == 0
      modifies this`depth, this`output, this`peak
      ensures Balanced()
      ensures r == WriteStruct(s, 0)
    {
      output := [];
      var written := SerializeStruct(s);
      assert written.Ok? ==> output == WriteStruct(s, 0).value;
      r := if written.Ok? then Ok(output) else Err(written.error);
    }

    method FromBytes(bs: seq<byte>) returns (r: Result<StructTag>)
      requires depth == 0
      modifies this`depth, this`input, this`peak
      ensures Balanced()
      ensures r == FromBytesSpec(bs)
    {
      input := bs;
      var s := DeserializeStruct();
      if s.Ok? && input != [] { return Err(RemainingInput); }
      r := s;
    }

    /** Whatever came before, failures included, every request is answered as by a fresh thread. */
    method Serve(requests: seq<Request>) returns (replies: seq<Reply>)
      requires depth == 0
      modifies this
      ensures Balanced()
      ensures |replies| == |requests|
      ensures forall i :: 0 <= i < |requests| ==> replies[i] == Answer(requests[i])
    {
      replies := [];
      for i := 0 to |requests|
        invariant Balanced()
        invariant |replies| == i
        invariant forall j :: 0 <= j < i ==> replies[j] == Answer(requests[j])
      {
        match requests[i]
        case Encode(s) =>
          var written := ToBytes(s);
          replies := replies + [Encoded(written)];
        case Decode(bs) =>
          var tag := FromBytes(bs);
          replies := replies + [Decoded(tag)];
      }
    }
  }

  /** Over whole messages: decoding what was encoded gives the tag back exactly when its parameters
      nest at most eight deep; at nine the bytes are rejected. */
  lemma DecodeAfterEncode(s: StructTag)
    requires WriteStruct(s, 0).Ok?
    ensures FromBytesSpec(WriteStruct(s, 0).value) == Ok(s) <==> NestingAll(s.typeParams) <= 8
    ensures FromBytesSpec(WriteStruct(s, 0).value).Ok? ==> FromBytesSpec(WriteStruct(s, 0).value) == Ok(s)
  {
    WriteStructExact(s, 0);
    WrittenStructReadsBack(s, 0, []);
    assert EncodingOfStruct(s) + [] == EncodingOfStruct(s);
  }

  /** Distinct byte strings never decode to the same tag. */
  lemma FromBytesInjective(bs: seq<byte>, bs': seq<byte>)
    requires FromBytesSpec(bs).Ok? && FromBytesSpec(bs) == FromBytesSpec(bs')
    ensures bs == bs'
  {
    ReadStructIsCanonical(bs, 0, MAX_READ_NESTING);
    ReadStructIsCanonical(bs', 0, MAX_READ_NESTING);
  }
}
