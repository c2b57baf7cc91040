/** The byte-keyed account state: every resource sits under `1 + BCS(struct tag)`, every module
    under `0 + BCS(module id)`. */
module AccountState {
  import opened Common
  import opened Bcs
  import opened TypeTags
  import TagCodec

  const CODE_TAG: byte := 0
  const RESOURCE_TAG: byte := 1

  type State = map<seq<byte>, seq<byte>>

  /** `KeyPanic` is the failed `unwrap` on a tag that cannot be serialized. */
  datatype Lookup = Found(data: seq<byte>) | Missing | KeyPanic

  // ----- Keys -----

  function ResourceKey(s: StructTag): Result<seq<byte>> {
    var body :- WriteStruct(s, 0);
    Ok([RESOURCE_TAG] + body)
  }

  function ModuleKey(m: ModuleId): Result<seq<byte>> {
    if |m.name| > MAX_SEQUENCE_LENGTH then Err(ExceededMaxLen)
    else Ok([CODE_TAG] + EncodingOfModule(m))
  }

  /** `access_vector`: a buffer that starts with the tag byte, extended by the serializer. */
  method AccessVector(thread: TagCodec.CodecThread, s: StructTag) returns (r: Result<seq<byte>>)
    requires thread.depth == 0
    modifies thread
    ensures thread.depth == 0
    ensures r == ResourceKey(s)
  {
    var key: seq<byte> := [RESOURCE_TAG];
    var body := thread.ToBytes(s);
    if body.Err? { return body; }
    key := key + body.value;
    r := Ok(key);
  }

  /** A tag has a key exactly when its parameters nest at most nine deep and its parts are sized. */
  lemma ResourceKeyExact(s: StructTag)
    ensures ResourceKey(s).Ok? <==> SizedStruct(s) && NestingAll(s.typeParams) <= 9
    ensures ResourceKey(s).Ok? ==> ResourceKey(s).value == [RESOURCE_TAG] + EncodingOfStruct(s)
  {
    WriteStructExact(s, 0);
  }

  /** No key of one struct tag is a prefix of the key of another. */
  lemma ResourceKeysPrefixFree(s: StructTag, s': StructTag)
    requires ResourceKey(s).Ok? && ResourceKey(s').Ok?
    requires ResourceKey(s).value <= ResourceKey(s').value
    ensures s == s'
  {
    ResourceKeyExact(s);
    ResourceKeyExact(s');
    var e, e' := EncodingOfStruct(s), EncodingOfStruct(s');
    PrefixParts([RESOURCE_TAG], e, [RESOURCE_TAG], e');
    assert e' + [] == e + e'[|e|..];
    StructEncodingUnique(s', [], s, e'[|e|..]);
  }

  lemma ModuleKeysPrefixFree(m: ModuleId, m': ModuleId)
    requires ModuleKey(m).Ok? && ModuleKey(m').Ok?
    requires ModuleKey(m).value <= ModuleKey(m').value
    ensures m == m'
  {
    var n, n' := WriteBytes(m.name), WriteBytes(m'.name);
    PrefixParts([CODE_TAG], EncodingOfModule(m), [CODE_TAG], EncodingOfModule(m'));
    PrefixParts(m.address, n, m'.address, n');
    assert n' + [] == n + n'[|n|..];
    BytesRoundTrip(m.name, n'[|n|..]);
    BytesRoundTrip(m'.name, []);
  }

  lemma PrefixParts(a: seq<byte>, x: seq<byte>, a': seq<byte>, x': seq<byte>)
    requires |a| == |a'| && a + x <= a' + x'
    ensures a == a' && x <= x'
  {
    var s, s' := a + x, a' + x';
    assert s == s'[..|s|];
    assert a == s[..|a|] && a' == s'[..|a|] && s'[..|s|][..|a|] == s'[..|a|];
    assert x == s[|a|..] && x' == s'[|a|..] && s'[..|s|][|a|..] == x'[..|x|];
  }

  /** A resource key and a module key are never prefixes of one another. */
  lemma KeySpacesDisjoint(s: StructTag, m: ModuleId)
    requires ResourceKey(s).Ok? && ModuleKey(m).Ok?
    ensures !(ResourceKey(s).value <= ModuleKey(m).value)
    ensures !(ModuleKey(m).value <= ResourceKey(s).value)
  {
    assert ResourceKey(s).value[0] != ModuleKey(m).value[0];
  }

  // ----- Stored entries and lookup -----

  datatype Entry = Resource(tag: StructTag, data: seq<byte>) | Module(id: ModuleId, code: seq<byte>)

  function Key(e: Entry): Result<seq<byte>> {
    match e
    case Resource(tag, _) => ResourceKey(tag)
    case Module(id, _) => ModuleKey(id)
  }

  function Content(e: Entry): seq<byte> {
    match e case Resource(_, data) => data case Module(_, code) => code
  }

  predicate AllKeyed(entries: seq<Entry>) {
    forall e :: e in entries ==> Key(e).Ok?
  }

  /** The account state after storing the entries in order, later ones replacing earlier ones. */
  function Stored(entries: seq<Entry>): State
    requires AllKeyed(entries)
  {
    if entries == [] then map[]
    else
      var last := entries[|entries| - 1];
      Stored(entries[..|entries| - 1])[Key(last).value := Content(last)]
  }

  /** The same entries kept by struct tag instead of by bytes. */
  function Typed(entries: seq<Entry>): map<StructTag, seq<byte>> {
    if entries == [] then map[]
    else
      var before := Typed(entries[..|entries| - 1]);
      match entries[|entries| - 1]
      case Resource(tag, data) => before[tag := data]
      case Module(_, _) => before
  }

  /** `get_resource_data` and `find_bytes_legacy_struct_tag_v5`. */
  function FindBytes(state: State, s: StructTag): Lookup {
    match ResourceKey(s)
    case Err(_) => KeyPanic
    case Ok(key) => if key in state then Found(state[key]) else Missing
  }

  /** Looking a struct tag up by its bytes agrees with the map keyed by struct tags, whatever
      resources and modules are stored beside it. */
  lemma {:induction false} LookupAgrees(entries: seq<Entry>, s: StructTag)
    requires AllKeyed(entries)
    ensures ResourceKey(s).Err? ==> FindBytes(Stored(entries), s) == KeyPanic
    ensures ResourceKey(s).Ok? ==>
              FindBytes(Stored(entries), s) ==
              if s in Typed(entries) then Found(Typed(entries)[s]) else Missing
  {
    if entries == [] || ResourceKey(s).Err? {
    } else {
      var last := entries[|entries| - 1];
      assert last in entries;
      LookupAgrees(entries[..|entries| - 1], s);
      match last
      case Resource(tag, _) =>
        if Key(last) == ResourceKey(s) { ResourceKeysPrefixFree(s, tag); }
      case Module(id, _) =>
        KeySpacesDisjoint(s, id);
    }
  }

  // ----- Known keys -----

  const CORE_CODE_ADDRESS: Address := [0, 0, 0, 0, 0, 0, 0, 0, 0, 0, 0, 0, 0, 0, 0, 1]

  predicate Ascii(s: seq<byte>) {
    forall i :: 0 <= i < |s| ==> s[i] < 0x80
  }

  /** Names of core modules and resources. */
  type ShortName = s: seq<byte> | Ascii(s) && |s| < 128 witness []

  const DIEM_ACCOUNT: ShortName := [68, 105, 101, 109, 65, 99, 99, 111, 117, 110, 116]
  const ACCOUNT: ShortName := [65, 99, 99, 111, 117, 110, 116]
  const BALANCE: ShortName := [66, 97, 108, 97, 110, 99, 101]
  const GAS: ShortName := [71, 65, 83]

  lemma {:induction false} AsciiIsUtf8(s: seq<byte>)
    requires Ascii(s)
    ensures Utf8(s)
  {
    if s == [] {
    } else {
      AsciiIsUtf8(s[1..]);
    }
  }

  function Name(s: ShortName): (id: Identifier)
    ensures id == s
  {
    AsciiIsUtf8(s);
    s
  }

  /** `struct_tag` of a core resource. */
  function CoreTag(moduleName: ShortName, name: ShortName, params: seq<TypeTag>): StructTag {
    StructTag(CORE_CODE_ADDRESS, Name(moduleName), Name(name), params)
  }

  function DiemAccountTag(): StructTag { CoreTag(DIEM_ACCOUNT, DIEM_ACCOUNT, []) }
  function AccountTag(): StructTag { CoreTag(ACCOUNT, ACCOUNT, []) }
  function BalanceTag(): StructTag { CoreTag(DIEM_ACCOUNT, BALANCE, [Struct(CoreTag(GAS, GAS, []))]) }

  lemma CoreTagKey(moduleName: ShortName, name: ShortName, params: seq<TypeTag>)
    requires |params| < 128
    requires SizedAll(params) && NestingAll(params) <= MAX_TYPE_TAG_NESTING
    ensures var s := CoreTag(moduleName, name, params);
            && SizedStruct(s)
            && EncodingOfStruct(s) == CORE_CODE_ADDRESS + ([|moduleName|] + moduleName) + ([|name|] + name)
                                      + [|params|] + EncodingOfAll(params)
            && ResourceKey(s) == Ok([RESOURCE_TAG] + EncodingOfStruct(s))
  {
    ResourceKeyExact(CoreTag(moduleName, name, params));
  }

  lemma OneStructParam(s: StructTag)
    requires SizedStruct(s) && s.typeParams == []
    ensures SizedAll([Struct(s)]) && NestingAll([Struct(s)]) == 1
    ensures EncodingOfAll([Struct(s)]) == [7] + EncodingOfStruct(s)
  {
    assert ([Struct(s)])[1..] == [];
  }

  /** The storage keys recorded in the repository's snapshot tests, byte for byte. */
  lemma KnownDiemAccountKey()
    ensures ResourceKey(DiemAccountTag()) ==
            Ok([1] + ([0, 0, 0, 0, 0, 0, 0, 0, 0, 0, 0, 0, 0, 0, 0, 1]
                      + ([11] + [68, 105, 101, 109, 65, 99, 99, 111, 117, 110, 116])
                      + ([11] + [68, 105, 101, 109, 65, 99, 99, 111, 117, 110, 116])
                      + [0] + []))
  {
    CoreTagKey(DIEM_ACCOUNT, DIEM_ACCOUNT, []);
  }

  lemma KnownBalanceKey()
    ensures ResourceKey(BalanceTag()) ==
            Ok([1] + ([0, 0, 0, 0, 0, 0, 0, 0, 0, 0, 0, 0, 0, 0, 0, 1]
                      + ([11] + [68, 105, 101, 109, 65, 99, 99, 111, 117, 110, 116])
                      + ([7] + [66, 97, 108, 97, 110, 99, 101])
                      + [1]
                      + ([7] + ([0, 0, 0, 0, 0, 0, 0, 0, 0, 0, 0, 0, 0, 0, 0, 1]
                                + ([3] + [71, 65, 83]) + ([3] + [71, 65, 83]) + [0] + []))))
  {
    var gas := CoreTag(GAS, GAS, []);
    CoreTagKey(GAS, GAS, []);
    OneStructParam(gas);
    CoreTagKey(DIEM_ACCOUNT, BALANCE, [Struct(gas)]);
  }

  /** The key of a module with a short name: a zero, the address, and the name behind its length. */
  lemma ShortModuleKey(m: ModuleId)
    requires |m.name| < 128
    ensures ModuleKey(m) == Ok([0] + (m.address + ([|m.name|] + m.name)))
  {
  }
}
