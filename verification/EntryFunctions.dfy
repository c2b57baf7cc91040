/** The generated entry-function codec, from a table of functions and their argument types: calls are
    encoded as BCS arguments by position and decoded through a map keyed by `module_function`. */
module EntryFunctions {
  import opened Common
  import opened Bcs

  // ----- Argument values -----

  datatype Ty = TBool | TU8 | TU64 | TAddress | TVec(elem: Ty)

  datatype Value =
    | VBool(flag: bool)
    | VU8(small: byte)
    | VU64(number: u64)
    | VAddress(address: Account)
    | VVec(items: seq<Value>)

  predicate HasType(v: Value, ty: Ty)
    decreases v
  {
    match ty
    case TBool => v.VBool?
    case TU8 => v.VU8?
    case TU64 => v.VU64?
    case TAddress => v.VAddress?
    case TVec(e) => v.VVec? && AllHaveType(v.items, e)
  }

  predicate AllHaveType(vs: seq<Value>, ty: Ty)
    decreases vs
  {
    vs == [] || (HasType(vs[0], ty) && AllHaveType(vs[1..], ty))
  }

  /** Every vector is short enough for BCS; otherwise `to_bytes(..).unwrap()` panics. */
  predicate Sized(v: Value)
    decreases v
  {
    v.VVec? ==> |v.items| <= MAX_SEQUENCE_LENGTH && AllSized(v.items)
  }

  predicate AllSized(vs: seq<Value>)
    decreases vs
  {
    vs == [] || (Sized(vs[0]) && AllSized(vs[1..]))
  }

  function ToBytes(v: Value): (bs: seq<byte>)
    ensures |bs| > 0
    decreases v
  {
    match v
    case VBool(b) => [if b then 1 else 0]
    case VU8(n) => [n]
    case VU64(n) => LeBytes(n, 8)
    case VAddress(a) => a
    case VVec(items) => WriteUleb(|items|) + AllToBytes(items)
  }

  function AllToBytes(vs: seq<Value>): seq<byte>
    decreases vs
  {
    if vs == [] then [] else ToBytes(vs[0]) + AllToBytes(vs[1..])
  }

  function Read(ty: Ty, bs: seq<byte>): (r: Parsed<Value>)
    ensures r.Done? ==> |r.rest| < |bs|
    decreases ty, 0, 0
  {
    match ty
    case TBool =>
      if bs == [] then Fail(Eof)
      else if bs[0] == 0 then Done(VBool(false), bs[1..])
      else if bs[0] == 1 then Done(VBool(true), bs[1..])
      else Fail(ExpectedBoolean)
    case TU8 =>
      if bs == [] then Fail(Eof) else Done(VU8(bs[0]), bs[1..])
    case TU64 =>
      if |bs| < 8 then Fail(Eof)
      else
        LeBytesInvertsLeValue(bs[..8]);
        Pow256Values();
        Done(VU64(LeValue(bs[..8])), bs[8..])
    case TAddress =>
      if |bs| < ACCOUNT_LENGTH then Fail(Eof)
      else Done(VAddress(bs[..ACCOUNT_LENGTH]), bs[ACCOUNT_LENGTH..])
    case TVec(e) =>
      match ReadLength(bs)
      case Fail(err) => Fail(err)
      case Done(n, rest) =>
        match ReadItems(e, n, rest)
        case Fail(err) => Fail(err)
        case Done(items, tail) => Done(VVec(items), tail)
  }

  function ReadItems(ty: Ty, count: nat, bs: seq<byte>): (r: Parsed<seq<Value>>)
    ensures r.Done? ==> |r.rest| <= |bs| && |r.value| == count
    decreases ty, 1, count
  {
    if count == 0 then Done([], bs)
    else
      match Read(ty, bs)
      case Fail(err) => Fail(err)
      case Done(first, rest) =>
        match ReadItems(ty, count - 1, rest)
        case Fail(err) => Fail(err)
        case Done(others, tail) => Done([first] + others, tail)
  }

  lemma {:induction false} ReadInvertsToBytes(v: Value, ty: Ty, rest: seq<byte>)
    requires HasType(v, ty) && Sized(v)
    ensures Read(ty, ToBytes(v) + rest) == Done(v, rest)
    decreases v
  {
    var bs := ToBytes(v) + rest;
    match v
    case VBool(b) =>
    case VU8(n) =>
    case VU64(n) =>
      assert bs[..8] == LeBytes(n, 8) && bs[8..] == rest;
      U64RoundTrip(n);
    case VAddress(a) =>
      assert bs[..ACCOUNT_LENGTH] == a && bs[ACCOUNT_LENGTH..] == rest;
    case VVec(items) =>
      Assoc(WriteUleb(|items|), AllToBytes(items), rest);
      UlebRoundTrip(|items|, AllToBytes(items) + rest);
      ReadItemsInvertsToBytes(items, ty.elem, rest);
  }

  lemma {:induction false} ReadItemsInvertsToBytes(vs: seq<Value>, ty: Ty, rest: seq<byte>)
    requires AllHaveType(vs, ty) && AllSized(vs)
    ensures ReadItems(ty, |vs|, AllToBytes(vs) + rest) == Done(vs, rest)
    decreases vs
  {
    if vs == [] {
      assert AllToBytes(vs) + rest == rest;
    } else {
      Assoc(ToBytes(vs[0]), AllToBytes(vs[1..]), rest);
      ReadInvertsToBytes(vs[0], ty, AllToBytes(vs[1..]) + rest);
      ReadItemsInvertsToBytes(vs[1..], ty, rest);
      assert vs == [vs[0]] + vs[1..];
    }
  }

  lemma {:induction false} ReadIsCanonical(ty: Ty, bs: seq<byte>)
    requires Read(ty, bs).Done?
    ensures var r := Read(ty, bs);
            HasType(r.value, ty) && Sized(r.value) && bs == ToBytes(r.value) + r.rest
    decreases ty, 0, 0
  {
    match ty
    case TBool =>
    case TU8 =>
    case TU64 => LeBytesInvertsLeValue(bs[..8]);
    case TAddress =>
    case TVec(e) =>
      UlebCanonical(bs);
      var Done(n, rest) := ReadLength(bs);
      ReadItemsIsCanonical(e, n, rest);
      var Done(items, tail) := ReadItems(e, n, rest);
      Assoc(WriteUleb(n), AllToBytes(items), tail);
  }

  lemma {:induction false} ReadItemsIsCanonical(ty: Ty, count: nat, bs: seq<byte>)
    requires ReadItems(ty, count, bs).Done?
    ensures var r := ReadItems(ty, count, bs);
            AllHaveType(r.value, ty) && AllSized(r.value) && bs == AllToBytes(r.value) + r.rest
    decreases ty, 1, count
  {
    if count == 0 {
    } else {
      ReadIsCanonical(ty, bs);
      var Done(first, rest) := Read(ty, bs);
      ReadItemsIsCanonical(ty, count - 1, rest);
      var Done(others, tail) := ReadItems(ty, count - 1, rest);
      var all := [first] + others;
      assert all[0] == first && all[1..] == others;
      Assoc(ToBytes(first), AllToBytes(others), tail);
    }
  }

  /** `bcs::from_bytes(..).ok()`. */
  function FromBytes(ty: Ty, bs: seq<byte>): Option<Value> {
    match Read(ty, bs)
    case Fail(_) => None
    case Done(v, rest) => if rest == [] then Some(v) else None
  }

  /** An argument is accepted as a value exactly when it is that value's encoding. */
  lemma FromBytesExact(ty: Ty, bs: seq<byte>, v: Value)
    ensures FromBytes(ty, bs) == Some(v) <==> HasType(v, ty) && Sized(v) && bs == ToBytes(v)
  {
    if FromBytes(ty, bs) == Some(v) {
      ReadIsCanonical(ty, bs);
    }
    if HasType(v, ty) && Sized(v) && bs == ToBytes(v) {
      ReadInvertsToBytes(v, ty, []);
      assert bs + [] == bs;
    }
  }

  // ----- Values of the common argument types -----

  function U8s(bs: seq<byte>): (vs: seq<Value>)
    ensures |vs| == |bs|
  {
    if bs == [] then [] else [VU8(bs[0])] + U8s(bs[1..])
  }

  lemma {:induction false} U8sEncode(bs: seq<byte>)
    ensures AllHaveType(U8s(bs), TU8) && AllSized(U8s(bs)) && AllToBytes(U8s(bs)) == bs
  {
    if bs == [] {
    } else {
      U8sEncode(bs[1..]);
      var vs := U8s(bs);
      assert vs[0] == VU8(bs[0]) && vs[1..] == U8s(bs[1..]);
      assert bs == [bs[0]] + bs[1..];
    }
  }

  /** A byte vector as an argument, and its bytes. */
  function Bytes(bs: seq<byte>): Value { VVec(U8s(bs)) }

  lemma BytesEncode(bs: seq<byte>)
    requires |bs| < 0x8000_0000
    ensures HasType(Bytes(bs), TVec(TU8)) && Sized(Bytes(bs)) && ToBytes(Bytes(bs)) == WriteBytes(bs)
  {
    U8sEncode(bs);
  }

  function Accounts(accounts: seq<Account>): (vs: seq<Value>)
    ensures |vs| == |accounts|
  {
    if accounts == [] then [] else [VAddress(accounts[0])] + Accounts(accounts[1..])
  }

  function Concat(bss: seq<seq<byte>>): seq<byte> {
    if bss == [] then [] else bss[0] + Concat(bss[1..])
  }

  lemma {:induction false} AccountsEncode(accounts: seq<Account>)
    ensures AllHaveType(Accounts(accounts), TAddress) && AllSized(Accounts(accounts))
    ensures AllToBytes(Accounts(accounts)) == Concat(accounts)
  {
    if accounts == [] {
    } else {
      AccountsEncode(accounts[1..]);
      var vs := Accounts(accounts);
      assert vs[0] == VAddress(accounts[0]) && vs[1..] == Accounts(accounts[1..]);
    }
  }

  function AllBytes(bss: seq<seq<byte>>): (vs: seq<Value>)
    ensures |vs| == |bss|
  {
    if bss == [] then [] else [Bytes(bss[0])] + AllBytes(bss[1..])
  }

  function WriteAllBytes(bss: seq<seq<byte>>): seq<byte> {
    if bss == [] then [] else WriteBytes(bss[0]) + WriteAllBytes(bss[1..])
  }

  lemma {:induction false} AllBytesEncode(bss: seq<seq<byte>>)
    requires forall i :: 0 <= i < |bss| ==> |bss[i]| < 0x8000_0000
    ensures AllHaveType(AllBytes(bss), TVec(TU8)) && AllSized(AllBytes(bss))
    ensures AllToBytes(AllBytes(bss)) == WriteAllBytes(bss)
  {
    if bss == [] {
    } else {
      BytesEncode(bss[0]);
      AllBytesEncode(bss[1..]);
      var vs := AllBytes(bss);
      assert vs[0] == Bytes(bss[0]) && vs[1..] == AllBytes(bss[1..]);
    }
  }

  /** How single values are written. */
  lemma KnownValues(b: byte, n: byte, a: Account)
    ensures ToBytes(VBool(false)) == [0] && ToBytes(VBool(true)) == [1] && ToBytes(VU8(b)) == [b]
    ensures ToBytes(VU64(n)) == [n, 0, 0, 0, 0, 0, 0, 0] && ToBytes(VAddress(a)) == a
  {
    LeBytesOfByte(n);
  }

  // ----- Tables, calls and payloads -----

  function JoinedKey(moduleName: string, function_: string): string {
    moduleName + "_" + function_
  }

  /** One entry function: its module, name, number of type arguments and argument types. */
  datatype Row = Row(moduleName: string, function_: string, typeArgs: nat, args: seq<Ty>) {
    /** The key its decoder is inserted under. */
    function Key(): string { JoinedKey(moduleName, function_) }
  }

  type Table = seq<Row>

  /** Type arguments are passed through untouched. */
  datatype TypeArg = TypeArg(id: nat)

  datatype Call = Call(row: nat, typeArgs: seq<TypeArg>, args: seq<Value>)

  datatype Payload =
    | EntryFunction(address: Account, moduleName: string, function_: string,
                    typeArgs: seq<TypeArg>, args: seq<seq<byte>>)
    | OtherPayload

  predicate DistinctKeys(table: Table) {
    forall i, j :: 0 <= i < j < |table| ==> table[i].Key() != table[j].Key()
  }

  predicate ArgsMatch(vs: seq<Value>, tys: seq<Ty>) {
    |vs| == |tys| && forall i :: 0 <= i < |vs| ==> HasType(vs[i], tys[i])
  }

  predicate ArgsSized(vs: seq<Value>) {
    forall i :: 0 <= i < |vs| ==> Sized(vs[i])
  }

  /** A value of the table's enumeration of calls. */
  predicate IsCall(table: Table, c: Call) {
    c.row < |table| && |c.typeArgs| == table[c.row].typeArgs && ArgsMatch(c.args, table[c.row].args)
  }

  function EncodeArgs(vs: seq<Value>): (bss: seq<seq<byte>>)
    ensures |bss| == |vs|
  {
    seq(|vs|, i requires 0 <= i < |vs| => ToBytes(vs[i]))
  }

  /** `encode`; `None` is the panic on an argument too long for BCS. */
  function Encode(table: Table, c: Call): Option<Payload>
    requires IsCall(table, c)
  {
    var row := table[c.row];
    if ArgsSized(c.args)
    then Some(EntryFunction(CORE_ADDRESS, row.moduleName, row.function_, c.typeArgs, EncodeArgs(c.args)))
    else None
  }

  /** The decoder map after all inserts: the last row with a key wins. */
  function DecoderMap(table: Table): (m: map<string, nat>)
    ensures forall k :: k in m ==> m[k] < |table|
  {
    if table == [] then map[]
    else
      DecoderMap(table[..|table| - 1])[table[|table| - 1].Key() := |table| - 1]
  }

  method BuildDecoderMap(table: Table) returns (m: map<string, nat>)
    ensures m == DecoderMap(table)
  {
    m := map[];
    for i := 0 to |table|
      invariant m == DecoderMap(table[..i])
    {
      assert table[..i + 1][..i] == table[..i];
      m := m[table[i].Key() := i];
    }
    assert table[..|table|] == table;
  }

  function DecodeArgs(tys: seq<Ty>, bss: seq<seq<byte>>): (r: Option<seq<Value>>)
    ensures r.Some? ==> |r.value| == |tys|
  {
    if tys == [] then Some([])
    else if bss == [] then None
    else
      match (FromBytes(tys[0], bss[0]), DecodeArgs(tys[1..], bss[1..]))
      case (Some(v), Some(others)) => Some([v] + others)
      case _ => None
  }

  function FindDecoder(table: Table, moduleName: string, function_: string): (r: Option<nat>)
    ensures r.Some? ==> r.value < |table|
  {
    if JoinedKey(moduleName, function_) in DecoderMap(table)
    then Some(DecoderMap(table)[JoinedKey(moduleName, function_)])
    else None
  }

  function DecodeRow(table: Table, i: nat, typeArgs: seq<TypeArg>, args: seq<seq<byte>>): Option<Call>
    requires i < |table|
  {
    if |typeArgs| < table[i].typeArgs then None
    else
      match DecodeArgs(table[i].args, args)
      case None => None
      case Some(vs) => Some(Call(i, typeArgs[..table[i].typeArgs], vs))
  }

  /** `decode`: looks only at the joined key, the leading type arguments and the leading arguments. */
  function Decode(table: Table, p: Payload): Option<Call> {
    if p.OtherPayload? then None
    else
      match FindDecoder(table, p.moduleName, p.function_)
      case None => None
      case Some(i) => DecodeRow(table, i, p.typeArgs, p.args)
  }

  // ----- Exact behaviour of the decoder -----

  lemma {:induction false} DecodeArgsExact(tys: seq<Ty>, bss: seq<seq<byte>>, vs: seq<Value>)
    ensures DecodeArgs(tys, bss) == Some(vs) <==>
            ArgsMatch(vs, tys) && ArgsSized(vs) && EncodeArgs(vs) <= bss
  {
    if tys == [] {
    } else if bss == [] {
    } else if vs == [] {
    } else {
      FromBytesExact(tys[0], bss[0], vs[0]);
      DecodeArgsExact(tys[1..], bss[1..], vs[1..]);
      assert vs == [vs[0]] + vs[1..];
      EncodeArgsCons(vs, bss);
      if DecodeArgs(tys, bss).Some? {
        var r := DecodeArgs(tys, bss).value;
        assert r == [r[0]] + r[1..];
      }
      ArgsMatchCons(vs, tys);
    }
  }

  /** Arguments are decoded independently, each at its own position. */
  lemma {:induction false} DecodeArgsPointwise(tys: seq<Ty>, bss: seq<seq<byte>>)
    ensures DecodeArgs(tys, bss).Some? <==>
            |tys| <= |bss| && forall k :: 0 <= k < |tys| ==> FromBytes(tys[k], bss[k]).Some?
    ensures DecodeArgs(tys, bss).Some? ==>
              forall k :: 0 <= k < |tys| ==> FromBytes(tys[k], bss[k]) == Some(DecodeArgs(tys, bss).value[k])
  {
    if tys == [] || bss == [] {
    } else {
      DecodeArgsPointwise(tys[1..], bss[1..]);
      assert forall k :: 0 < k < |tys| ==> tys[k] == tys[1..][k - 1];
      assert forall k :: 0 < k < |bss| ==> bss[k] == bss[1..][k - 1];
      if |tys| <= |bss| && forall k :: 0 <= k < |tys| ==> FromBytes(tys[k], bss[k]).Some? {
        forall k | 0 <= k < |tys| - 1
          ensures FromBytes(tys[1..][k], bss[1..][k]).Some?
        {
          assert tys[1..][k] == tys[k + 1] && bss[1..][k] == bss[k + 1];
        }
      }
    }
  }

  lemma EncodeArgsCons(vs: seq<Value>, bss: seq<seq<byte>>)
    requires vs != [] && bss != []
    ensures EncodeArgs(vs) <= bss <==> ToBytes(vs[0]) == bss[0] && EncodeArgs(vs[1..]) <= bss[1..]
  {
    assert EncodeArgs(vs) == [ToBytes(vs[0])] + EncodeArgs(vs[1..]);
    assert bss == [bss[0]] + bss[1..];
    if EncodeArgs(vs) <= bss {
      assert EncodeArgs(vs)[0] == bss[0];
      assert EncodeArgs(vs[1..]) == EncodeArgs(vs)[1..];
    }
  }

  lemma ArgsMatchCons(vs: seq<Value>, tys: seq<Ty>)
    requires vs != [] && tys != []
    ensures ArgsMatch(vs, tys) <==> HasType(vs[0], tys[0]) && ArgsMatch(vs[1..], tys[1..])
    ensures ArgsSized(vs) <==> Sized(vs[0]) && ArgsSized(vs[1..])
  {
    assert vs == [vs[0]] + vs[1..] && tys == [tys[0]] + tys[1..];
    if ArgsMatch(vs[1..], tys[1..]) && HasType(vs[0], tys[0]) {
      forall i | 0 <= i < |vs|
        ensures HasType(vs[i], tys[i])
      {
        assert i > 0 ==> vs[i] == vs[1..][i - 1] && tys[i] == tys[1..][i - 1];
      }
    }
    if ArgsMatch(vs, tys) {
      forall i | 0 <= i < |vs| - 1
        ensures HasType(vs[1..][i], tys[1..][i])
      {
        assert vs[1..][i] == vs[i + 1] && tys[1..][i] == tys[i + 1];
      }
    }
    if ArgsSized(vs[1..]) && Sized(vs[0]) {
      forall i | 0 <= i < |vs|
        ensures Sized(vs[i])
      {
        assert i > 0 ==> vs[i] == vs[1..][i - 1];
      }
    }
    if ArgsSized(vs) {
      forall i | 0 <= i < |vs| - 1
        ensures Sized(vs[1..][i])
      {
        assert vs[1..][i] == vs[i + 1];
      }
    }
  }

  /** The decoder accepts a payload as a call exactly when the key selects the call's row and the
      payload starts with the call's type arguments and encoded arguments. */
  lemma DecodeExact(table: Table, p: Payload, c: Call)
    ensures Decode(table, p) == Some(c) <==>
            && p.EntryFunction?
            && FindDecoder(table, p.moduleName, p.function_) == Some(c.row)
            && IsCall(table, c) && ArgsSized(c.args)
            && c.typeArgs <= p.typeArgs && EncodeArgs(c.args) <= p.args
  {
    if p.EntryFunction? && FindDecoder(table, p.moduleName, p.function_).Some? {
      var i := FindDecoder(table, p.moduleName, p.function_).value;
      var n := table[i].typeArgs;
      DecodeArgsExact(table[i].args, p.args, c.args);
      if n <= |p.typeArgs| {
        assert c.typeArgs == p.typeArgs[..n] <==> |c.typeArgs| == n && c.typeArgs <= p.typeArgs;
      }
    }
  }

  /** The module address and whatever follows the expected arguments are ignored. */
  lemma DecodeIgnoresTheRest(table: Table, p: Payload, address: Account,
                             moreTypes: seq<TypeArg>, moreArgs: seq<seq<byte>>)
    requires p.EntryFunction? && Decode(table, p).Some?
    ensures Decode(table, p.(address := address, typeArgs := p.typeArgs + moreTypes, args := p.args + moreArgs))
            == Decode(table, p)
  {
    var c := Decode(table, p).value;
    DecodeExact(table, p, c);
    DecodeExact(table, p.(address := address, typeArgs := p.typeArgs + moreTypes, args := p.args + moreArgs), c);
  }

  /** Encoding what was decoded gives the payload back exactly when it comes from the core address, is
      spelled like the row it dispatches to, and carries nothing beyond that row's arguments. */
  lemma EncodeAfterDecode(table: Table, p: Payload)
    requires p.EntryFunction? && Decode(table, p).Some?
    ensures var c := Decode(table, p).value;
            && IsCall(table, c)
            && (Encode(table, c) == Some(p) <==>
                  && p.address == CORE_ADDRESS
                  && p.moduleName == table[c.row].moduleName && p.function_ == table[c.row].function_
                  && |p.typeArgs| == table[c.row].typeArgs && |p.args| == |table[c.row].args|)
  {
    var c := Decode(table, p).value;
    DecodeExact(table, p, c);
    var n, k := |c.typeArgs|, |c.args|;
    assert c.typeArgs == p.typeArgs[..n] && EncodeArgs(c.args) == p.args[..k];
    assert |p.typeArgs| == n ==> c.typeArgs == p.typeArgs;
    assert |p.args| == k ==> EncodeArgs(c.args) == p.args;
  }

  // ----- Round trip -----

  lemma {:induction false} DecoderMapKeeps(table: Table, i: nat)
    requires i < |table|
    requires forall j :: i < j < |table| ==> table[j].Key() != table[i].Key()
    ensures table[i].Key() in DecoderMap(table) && DecoderMap(table)[table[i].Key()] == i
  {
    var n := |table| - 1;
    if i < n {
      DecoderMapKeeps(table[..n], i);
    }
  }

  lemma {:induction false} DecoderMapLastWins(table: Table, i: nat, j: nat)
    requires i < j < |table| && table[i].Key() == table[j].Key()
    ensures table[i].Key() in DecoderMap(table) && DecoderMap(table)[table[i].Key()] >= j
  {
    var n := |table| - 1;
    if j < n {
      DecoderMapLastWins(table[..n], i, j);
    }
  }

  /** Decoding an encoded call returns that call. */
  lemma RoundTrip(table: Table, c: Call)
    requires DistinctKeys(table)
    requires IsCall(table, c) && Encode(table, c).Some?
    ensures Decode(table, Encode(table, c).value) == Some(c)
  {
    DecoderMapKeeps(table, c.row);
    DecodeExact(table, Encode(table, c).value, c);
  }

  function DefaultValue(ty: Ty): Value {
    match ty
    case TBool => VBool(false)
    case TU8 => VU8(0)
    case TU64 => VU64(0)
    case TAddress => VAddress(CORE_ADDRESS)
    case TVec(_) => VVec([])
  }

  function DefaultCall(table: Table, i: nat): (c: Call)
    requires i < |table|
    ensures IsCall(table, c) && Encode(table, c).Some? && c.row == i
  {
    Call(i, seq(table[i].typeArgs, _ => TypeArg(0)),
         seq(|table[i].args|, k requires 0 <= k < |table[i].args| => DefaultValue(table[i].args[k])))
  }

  ghost predicate AllCallsRoundTrip(table: Table) {
    forall c :: IsCall(table, c) && Encode(table, c).Some? ==> Decode(table, Encode(table, c).value) == Some(c)
  }

  /** For every table: all calls survive the round trip exactly when the dispatch keys are distinct. */
  lemma RoundTripIffDistinctKeys(table: Table)
    ensures AllCallsRoundTrip(table) <==> DistinctKeys(table)
  {
    if DistinctKeys(table) {
      forall c | IsCall(table, c) && Encode(table, c).Some?
        ensures Decode(table, Encode(table, c).value) == Some(c)
      {
        RoundTrip(table, c);
      }
    }
    if AllCallsRoundTrip(table) {
      forall i, j | 0 <= i < j < |table|
        ensures table[i].Key() != table[j].Key()
      {
        if table[i].Key() == table[j].Key() {
          DecoderMapLastWins(table, i, j);
          var c := DefaultCall(table, i);
          DecodeExact(table, Encode(table, c).value, c);
        }
      }
    }
  }

  /** The joined key does not determine the module: two different functions can share it. */
  lemma JoinedKeyAmbiguous()
    ensures JoinedKey("multi_action", "migration_migrate_offer") == JoinedKey("multi_action_migration", "migrate_offer")
  {
    Assoc("multi_action", "_", "migration_migrate_offer");
    assert "multi_action_migration" == "multi_action" + "_" + "migration";
    assert "migration_migrate_offer" == "migration" + "_" + "migrate_offer";
  }
}
