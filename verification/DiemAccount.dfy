/** Event keys, the legacy account resource stored under an account, and how the account's own
    address is recovered from it. */
module DiemAccount {
  import opened Common
  import opened Bcs
  import opened TypeTags
  import opened LegacyAddress
  import opened AccountState

  // ----- Event keys -----

  const COUNTER_LENGTH: nat := 8
  const EVENT_KEY_LENGTH: nat := ADDRESS_LENGTH + COUNTER_LENGTH

  type EventKey = k: seq<byte> | |k| == EVENT_KEY_LENGTH witness seq(EVENT_KEY_LENGTH, _ => 0)

  function KeyOf(address: Address, salt: u64): EventKey {
    LeBytes(salt, COUNTER_LENGTH) + address
  }

  /** Fills a zeroed buffer: the counter in front, the address behind it. */
  method NewFromAddress(address: Address, salt: u64) returns (key: EventKey)
    ensures key == KeyOf(address, salt)
    ensures LeValue(key[..8]) == salt && key[8..] == address
  {
    U64RoundTrip(salt);
    var output := new byte[EVENT_KEY_LENGTH](_ => 0);
    var counter := LeBytes(salt, COUNTER_LENGTH);
    for i := 0 to COUNTER_LENGTH
      invariant output[..i] == counter[..i]
    {
      output[i] := counter[i];
    }
    for i := 0 to ADDRESS_LENGTH
      invariant output[..COUNTER_LENGTH] == counter
      invariant output[COUNTER_LENGTH..COUNTER_LENGTH + i] == address[..i]
    {
      output[COUNTER_LENGTH + i] := address[i];
    }
    assert output[..] == output[..COUNTER_LENGTH] + output[COUNTER_LENGTH..EVENT_KEY_LENGTH];
    key := output[..];
  }

  function CreatorAddress(key: EventKey): Address {
    key[EVENT_KEY_LENGTH - ADDRESS_LENGTH..]
  }

  function CreationNumber(key: EventKey): u64 {
    LeBytesInvertsLeValue(key[..COUNTER_LENGTH]);
    Pow256Values();
    LeValue(key[..COUNTER_LENGTH])
  }

  /** Event keys and pairs of an address and a counter correspond one to one. */
  lemma EventKeyBijection(address: Address, salt: u64, key: EventKey)
    ensures CreatorAddress(KeyOf(address, salt)) == address
    ensures CreationNumber(KeyOf(address, salt)) == salt
    ensures KeyOf(CreatorAddress(key), CreationNumber(key)) == key
    ensures CreatorAddress(key) == key[8..24] && CreationNumber(key) == LeValue(key[..8])
  {
    var made := KeyOf(address, salt);
    assert made[..COUNTER_LENGTH] == LeBytes(salt, COUNTER_LENGTH);
    assert made[COUNTER_LENGTH..] == address;
    U64RoundTrip(salt);
    LeBytesInvertsLeValue(key[..COUNTER_LENGTH]);
    assert key == key[..COUNTER_LENGTH] + key[COUNTER_LENGTH..];
  }

  // ----- Resources and their bytes -----

  datatype EventHandle = EventHandle(count: u64, key: EventKey)

  datatype LegacyAccount = LegacyAccount(
    authenticationKey: seq<byte>,
    withdrawCapability: Option<Address>,
    keyRotationCapability: Option<Address>,
    receivedEvents: EventHandle,
    sentEvents: EventHandle,
    sequenceNumber: u64)

  datatype AccountResource = AccountResource(authenticationKey: seq<byte>, sequenceNumber: u64, selfAddress: Address)

  function WriteCapability(c: Option<Address>): seq<byte> {
    match c case None => [0] case Some(a) => [1] + a
  }

  function WriteHandle(h: EventHandle): seq<byte> {
    LeBytes(h.count, 8) + WriteBytes(h.key)
  }

  function WriteAccount(a: LegacyAccount): seq<byte> {
    WriteBytes(a.authenticationKey) + (WriteCapability(a.withdrawCapability)
    + (WriteCapability(a.keyRotationCapability) + (WriteHandle(a.receivedEvents)
    + (WriteHandle(a.sentEvents) + LeBytes(a.sequenceNumber, 8)))))
  }

  function ReadU64(bs: seq<byte>): Parsed<u64> {
    if |bs| < 8 then Fail(Eof) else
    LeBytesInvertsLeValue(bs[..8]);
    Pow256Values();
    Done(LeValue(bs[..8]), bs[8..])
  }

  function ReadAddress(bs: seq<byte>): Parsed<Address> {
    if |bs| < ADDRESS_LENGTH then Fail(Eof) else Done(bs[..ADDRESS_LENGTH], bs[ADDRESS_LENGTH..])
  }

  function ReadCapability(bs: seq<byte>): Parsed<Option<Address>> {
    if bs == [] then Fail(Eof)
    else if bs[0] == 0 then Done(None, bs[1..])
    else if bs[0] != 1 then Fail(UnknownVariant)
    else match ReadAddress(bs[1..])
         case Fail(e) => Fail(e)
         case Done(a, rest) => Done(Some(a), rest)
  }

  function ReadHandle(bs: seq<byte>): Parsed<EventHandle> {
    match ReadU64(bs)
    case Fail(e) => Fail(e)
    case Done(count, rest) =>
      match ReadBytes(rest)
      case Fail(e) => Fail(e)
      case Done(key, rest') =>
        if |key| == EVENT_KEY_LENGTH then Done(EventHandle(count, key), rest') else Fail(WrongLength)
  }

  function ReadAccount(bs: seq<byte>): Parsed<LegacyAccount> {
    match ReadBytes(bs)
    case Fail(e) => Fail(e)
    case Done(auth, r0) =>
      match ReadCapability(r0)
      case Fail(e) => Fail(e)
      case Done(withdraw, r1) =>
        match ReadCapability(r1)
        case Fail(e) => Fail(e)
        case Done(rotate, r2) =>
          match ReadHandle(r2)
          case Fail(e) => Fail(e)
          case Done(received, r3) =>
            match ReadHandle(r3)
            case Fail(e) => Fail(e)
            case Done(sent, r4) =>
              match ReadU64(r4)
              case Fail(e) => Fail(e)
              case Done(n, r5) => Done(LegacyAccount(auth, withdraw, rotate, received, sent, n), r5)
  }

  function ReadAccountResource(bs: seq<byte>): Parsed<AccountResource> {
    match ReadBytes(bs)
    case Fail(e) => Fail(e)
    case Done(auth, r0) =>
      match ReadU64(r0)
      case Fail(e) => Fail(e)
      case Done(n, r1) =>
        match ReadAddress(r1)
        case Fail(e) => Fail(e)
        case Done(a, r2) => Done(AccountResource(auth, n, a), r2)
  }

  /** `bcs::from_bytes`: everything must be consumed. */
  function Whole<T>(r: Parsed<T>): Result<T> {
    match r
    case Fail(e) => Err(e)
    case Done(v, rest) => if rest == [] then Ok(v) else Err(RemainingInput)
  }

  lemma U64Reads(n: u64, rest: seq<byte>)
    ensures ReadU64(LeBytes(n, 8) + rest) == Done(n, rest)
  {
    var bs := LeBytes(n, 8) + rest;
    assert bs[..8] == LeBytes(n, 8) && bs[8..] == rest;
    U64RoundTrip(n);
  }

  lemma CapabilityReads(c: Option<Address>, rest: seq<byte>)
    ensures ReadCapability(WriteCapability(c) + rest) == Done(c, rest)
  {
    if c.Some? {
      var bs := WriteCapability(c) + rest;
      assert bs[1..] == c.value + rest;
      assert bs[1..][..ADDRESS_LENGTH] == c.value && bs[1..][ADDRESS_LENGTH..] == rest;
    }
  }

  lemma HandleReads(h: EventHandle, rest: seq<byte>)
    ensures ReadHandle(WriteHandle(h) + rest) == Done(h, rest)
  {
    Assoc(LeBytes(h.count, 8), WriteBytes(h.key), rest);
    U64Reads(h.count, WriteBytes(h.key) + rest);
    BytesRoundTrip(h.key, rest);
  }

  /** An account resource, followed by anything, is read back field by field. */
  lemma AccountRoundTrip(a: LegacyAccount, rest: seq<byte>)
    requires |a.authenticationKey| < 0x8000_0000
    ensures ReadAccount(WriteAccount(a) + rest) == Done(a, rest)
  {
    var f5 := LeBytes(a.sequenceNumber, 8);
    var f4 := WriteHandle(a.sentEvents) + f5;
    var f3 := WriteHandle(a.receivedEvents) + f4;
    var f2 := WriteCapability(a.keyRotationCapability) + f3;
    var f1 := WriteCapability(a.withdrawCapability) + f2;
    Assoc(WriteBytes(a.authenticationKey), f1, rest);
    Assoc(WriteCapability(a.withdrawCapability), f2, rest);
    Assoc(WriteCapability(a.keyRotationCapability), f3, rest);
    Assoc(WriteHandle(a.receivedEvents), f4, rest);
    Assoc(WriteHandle(a.sentEvents), f5, rest);
    BytesRoundTrip(a.authenticationKey, f1 + rest);
    CapabilityReads(a.withdrawCapability, f2 + rest);
    CapabilityReads(a.keyRotationCapability, f3 + rest);
    HandleReads(a.receivedEvents, f4 + rest);
    HandleReads(a.sentEvents, f5 + rest);
    U64Reads(a.sequenceNumber, rest);
  }

  /** Where the parts of a stored account lie when its key has 32 bytes and both capabilities are
      delegated: the key behind its length, two zeros, the received and the sent events, each a count
      and a key behind its length, and the sequence number. */
  lemma AccountLayout(a: LegacyAccount)
    requires |a.authenticationKey| == 32 && a.withdrawCapability.None? && a.keyRotationCapability.None?
    ensures var bs := WriteAccount(a);
            && |bs| == 109
            && bs[0] == 32 && bs[1..33] == a.authenticationKey && bs[33] == 0 && bs[34] == 0
            && LeValue(bs[35..43]) == a.receivedEvents.count
            && bs[43] == 24 && bs[44..68] == a.receivedEvents.key
            && LeValue(bs[68..76]) == a.sentEvents.count
            && bs[76] == 24 && bs[77..101] == a.sentEvents.key
            && LeValue(bs[101..]) == a.sequenceNumber
  {
    var head := [32] + a.authenticationKey + [0] + [0];
    var received, sent, last := WriteHandle(a.receivedEvents), WriteHandle(a.sentEvents), LeBytes(a.sequenceNumber, 8);
    HandleLayout(a.receivedEvents);
    HandleLayout(a.sentEvents);
    U64RoundTrip(a.sequenceNumber);
    AccountParts(a);
    Slices(head, received, sent, last);
    assert head[0] == 32 && head[1..33] == a.authenticationKey && head[33] == 0 && head[34] == 0;
  }

  /** A capability that is held takes a one and the address of its account; withdrawal comes first. */
  lemma CapabilityLayout(a: LegacyAccount)
    requires |a.authenticationKey| == 32 && a.withdrawCapability.Some? && a.keyRotationCapability.None?
    ensures var bs := WriteAccount(a);
            |bs| > 50 && bs[33] == 1 && bs[34..50] == a.withdrawCapability.value && bs[50] == 0
  {
    var tail := WriteHandle(a.receivedEvents) + (WriteHandle(a.sentEvents) + LeBytes(a.sequenceNumber, 8));
    CapabilitySlices(WriteBytes(a.authenticationKey), a.withdrawCapability.value, tail);
  }

  lemma CapabilitySlices(key: seq<byte>, w: Address, tail: seq<byte>)
    requires |key| == 33
    ensures var bs := key + ([1] + w + ([0] + tail));
            |bs| > 50 && bs[33] == 1 && bs[34..50] == w && bs[50] == 0
  {
  }

  lemma AccountParts(a: LegacyAccount)
    requires |a.authenticationKey| == 32 && a.withdrawCapability.None? && a.keyRotationCapability.None?
    ensures WriteAccount(a) == [32] + a.authenticationKey + [0] + [0]
                               + (WriteHandle(a.receivedEvents)
                                  + (WriteHandle(a.sentEvents) + LeBytes(a.sequenceNumber, 8)))
  {
    var tail := WriteHandle(a.receivedEvents) + (WriteHandle(a.sentEvents) + LeBytes(a.sequenceNumber, 8));
    var key := WriteBytes(a.authenticationKey);
    assert key == [32] + a.authenticationKey;
    Assoc(key + [0], [0], tail);
    Assoc(key, [0], [0] + tail);
  }

  lemma Slices(head: seq<byte>, r: seq<byte>, s: seq<byte>, last: seq<byte>)
    requires |head| == 35 && |r| == 33 && |s| == 33 && |last| == 8
    ensures var bs := head + (r + (s + last));
            && |bs| == 109 && bs[0] == head[0] && bs[1..33] == head[1..33] && bs[33] == head[33] && bs[34] == head[34]
            && bs[35..43] == r[..8] && bs[43] == r[8] && bs[44..68] == r[9..]
            && bs[68..76] == s[..8] && bs[76] == s[8] && bs[77..101] == s[9..]
            && bs[101..] == last
  {
  }

  lemma HandleLayout(h: EventHandle)
    ensures var bs := WriteHandle(h);
            |bs| == 33 && LeValue(bs[..8]) == h.count && bs[8] == 24 && bs[9..] == h.key
  {
    U64RoundTrip(h.count);
    HandleSlices(LeBytes(h.count, 8), WriteBytes(h.key));
    assert WriteUleb(24) == [24];
  }

  lemma HandleSlices(count: seq<byte>, key: seq<byte>)
    requires |count| == 8 && |key| == 25
    ensures var bs := count + key;
            bs[..8] == count && bs[8] == key[0] && bs[9..] == key[1..]
  {
  }

  /** A new-style account: the key, the sequence number and the address. */
  function WriteAccountResource(r: AccountResource): seq<byte> {
    WriteBytes(r.authenticationKey) + (LeBytes(r.sequenceNumber, 8) + r.selfAddress)
  }

  lemma AccountResourceRoundTrip(auth: seq<byte>, n: u64, a: Address, rest: seq<byte>)
    requires |auth| < 0x8000_0000
    ensures ReadAccountResource(WriteBytes(auth) + (LeBytes(n, 8) + (a + rest))) ==
            Done(AccountResource(auth, n, a), rest)
  {
    BytesRoundTrip(auth, LeBytes(n, 8) + (a + rest));
    U64Reads(n, a + rest);
    assert (a + rest)[..ADDRESS_LENGTH] == a && (a + rest)[ADDRESS_LENGTH..] == rest;
  }

  // ----- The account's address -----

  /** `address()`: through the literal of the sent-events creator; `None` is the failed `expect`. */
  function AddressOf(a: LegacyAccount): Option<Address> {
    ParseLiteral(ToHexLiteral(CreatorAddress(a.sentEvents.key)))
  }

  /** The detour never fails; an account whose sent-events key was made from an address reports it. */
  lemma AddressNeverFails(a: LegacyAccount)
    ensures AddressOf(a) == Some(CreatorAddress(a.sentEvents.key))
    ensures forall address: Address, salt: u64 ::
              a.sentEvents.key == KeyOf(address, salt) ==> AddressOf(a) == Some(address)
  {
    LiteralRoundTrip(CreatorAddress(a.sentEvents.key));
    forall address: Address, salt: u64 | a.sentEvents.key == KeyOf(address, salt)
      ensures AddressOf(a) == Some(address)
    {
      EventKeyBijection(address, salt, a.sentEvents.key);
    }
  }

  // ----- Looking an account up -----

  /** The tags of the new-style and the legacy account resource, as their types declare them. */
  datatype AccountTags = AccountTags(current: StructTag, legacy: StructTag)

  /** The tags are different and both have keys. */
  predicate Usable(tags: AccountTags) {
    ResourceKey(tags.current).Ok? && ResourceKey(tags.legacy).Ok? && tags.current != tags.legacy
  }

  /** This is so for `0x1::Account::Account` and `0x1::DiemAccount::DiemAccount`. */
  lemma CoreTagsUsable()
    ensures Usable(AccountTags(AccountTag(), DiemAccountTag()))
  {
    CoreTagKey(ACCOUNT, ACCOUNT, []);
    CoreTagKey(DIEM_ACCOUNT, DIEM_ACCOUNT, []);
    assert |AccountTag().name| != |DiemAccountTag().name|;
  }

  datatype AccountLookup = Account(resource: AccountResource) | NotFound | Panic

  /** `get_resource`: absent when nothing is stored under the tag or it does not parse. */
  function GetResource<T>(state: State, tag: StructTag, read: seq<byte> -> Parsed<T>): Option<T>
    requires ResourceKey(tag).Ok?
  {
    match FindBytes(state, tag)
    case Missing => None
    case Found(data) =>
      var r := Whole(read(data));
      if r.Ok? then Some(r.value) else None
  }

  /** `get_account_resource`: the new resource if present and readable, else the legacy one. */
  function GetAccountResource(state: State, tags: AccountTags): AccountLookup
    requires Usable(tags)
  {
    match GetResource(state, tags.current, ReadAccountResource)
    case Some(r) => Account(r)
    case None =>
      match GetResource(state, tags.legacy, ReadAccount)
      case None => NotFound
      case Some(a) =>
        match AddressOf(a)
        case None => Panic
        case Some(address) => Account(AccountResource(a.authenticationKey, a.sequenceNumber, address))
  }

  /** On no account state at all does the address detour panic. */
  lemma AccountLookupNeverPanics(state: State, tags: AccountTags)
    requires Usable(tags)
    ensures !GetAccountResource(state, tags).Panic?
  {
    var legacy := GetResource(state, tags.legacy, ReadAccount);
    if legacy.Some? { AddressNeverFails(legacy.value); }
  }

  /** The value stored under a tag, decoded; absent when nothing is stored or it does not parse. */
  function StoredAs<T>(entries: seq<Entry>, tag: StructTag, read: seq<byte> -> Parsed<T>): Option<T> {
    if tag !in Typed(entries) then None
    else
      match Whole(read(Typed(entries)[tag]))
      case Ok(v) => Some(v)
      case Err(_) => None
  }

  lemma GetResourceStored<T>(entries: seq<Entry>, tag: StructTag, read: seq<byte> -> Parsed<T>)
    requires AllKeyed(entries) && ResourceKey(tag).Ok?
    ensures GetResource(Stored(entries), tag, read) == StoredAs(entries, tag, read)
  {
    LookupAgrees(entries, tag);
  }

  /** What the lookup reports for a legacy account. */
  function Reported(a: LegacyAccount): AccountLookup {
    Account(AccountResource(a.authenticationKey, a.sequenceNumber, CreatorAddress(a.sentEvents.key)))
  }

  /** `get_account_resource` on every account state: a readable new-style resource wins; otherwise a
      readable legacy one is reported with its own key, sequence number and sent-events creator;
      whatever else is stored makes no difference. */
  lemma AccountLookupExact(entries: seq<Entry>, tags: AccountTags)
    requires AllKeyed(entries) && Usable(tags)
    ensures var current := StoredAs(entries, tags.current, ReadAccountResource);
            var legacy := StoredAs(entries, tags.legacy, ReadAccount);
            GetAccountResource(Stored(entries), tags) ==
            if current.Some? then Account(current.value)
            else if legacy.Some? then Reported(legacy.value)
            else NotFound
  {
    GetResourceStored(entries, tags.current, ReadAccountResource);
    GetResourceStored(entries, tags.legacy, ReadAccount);
    var legacy := StoredAs(entries, tags.legacy, ReadAccount);
    if legacy.Some? { AddressNeverFails(legacy.value); }
  }

  lemma StoredOneMore(entries: seq<Entry>, tag: StructTag, data: seq<byte>)
    requires AllKeyed(entries) && ResourceKey(tag).Ok?
    ensures var after := entries + [Resource(tag, data)];
            AllKeyed(after) && Typed(after) == Typed(entries)[tag := data]
  {
    var after := entries + [Resource(tag, data)];
    assert after[..|after| - 1] == entries;
  }

  lemma WholeAccount(a: LegacyAccount)
    requires |a.authenticationKey| < 0x8000_0000
    ensures Whole(ReadAccount(WriteAccount(a))) == Ok(a)
  {
    AccountRoundTrip(a, []);
    assert WriteAccount(a) + [] == WriteAccount(a);
  }

  lemma WholeAccountResource(r: AccountResource)
    requires |r.authenticationKey| < 0x8000_0000
    ensures Whole(ReadAccountResource(WriteAccountResource(r))) == Ok(r)
  {
    AccountResourceRoundTrip(r.authenticationKey, r.sequenceNumber, r.selfAddress, []);
    assert r.selfAddress + [] == r.selfAddress;
  }

  /** A new-style account just stored is what the lookup reports, beside any legacy one. */
  lemma CurrentAccountFound(entries: seq<Entry>, tags: AccountTags, r: AccountResource)
    requires AllKeyed(entries) && Usable(tags) && |r.authenticationKey| < 0x8000_0000
    ensures var after := entries + [Resource(tags.current, WriteAccountResource(r))];
            AllKeyed(after) && GetAccountResource(Stored(after), tags) == Account(r)
  {
    var after := entries + [Resource(tags.current, WriteAccountResource(r))];
    StoredOneMore(entries, tags.current, WriteAccountResource(r));
    WholeAccountResource(r);
    assert StoredAs(after, tags.current, ReadAccountResource) == Some(r);
    AccountLookupExact(after, tags);
  }

  /** So with no new-style resource, a legacy account is found right after it was stored. */
  lemma LegacyAccountFound(entries: seq<Entry>, tags: AccountTags, a: LegacyAccount)
    requires AllKeyed(entries) && Usable(tags)
    requires tags.current !in Typed(entries) && |a.authenticationKey| < 0x8000_0000
    ensures var after := entries + [Resource(tags.legacy, WriteAccount(a))];
            AllKeyed(after) && GetAccountResource(Stored(after), tags) == Reported(a)
  {
    var after := entries + [Resource(tags.legacy, WriteAccount(a))];
    StoredOneMore(entries, tags.legacy, WriteAccount(a));
    WholeAccount(a);
    assert StoredAs(after, tags.legacy, ReadAccount) == Some(a);
    AccountLookupExact(after, tags);
  }
}
