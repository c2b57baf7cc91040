# Libra framework tooling: a verified model

This project models the parts of the repository where data crosses a format or a version, or where
generated code has to mean what it was generated from, and proves what those parts promise.

* **The version-five storage keys.** `TypeTagV5` and `StructTagV5` are mutually recursive and are
  written in BCS through a thread-local nesting counter whose limit is 9 for writing and 8 for
  reading. The bytes, behind a tag byte, index the account state. `Bcs` and `Utf8Text` define the format,
  `TypeTags` the tags with their writer and reader, `TagCodec` the stateful codec, `AccountState`
  the keys and lookup, `TagDisplay` the printed form.
* **The legacy identifiers.** `LegacyAddress` (16-byte addresses and trimmed hex literals),
  `DiemAccount` (event keys, the legacy account resource and its lookup), `HashValue` (bits, nibbles,
  prefixes and order of 256-bit hashes).
* **The governance upgrade builder.** `MoveText` and `MoveScript` give the generated Move subset a
  text, a reader that ignores the layout, and a meaning; `ReleaseBundle` says which statements a
  package should become; `ScriptAuthor` is the emitting code; `UpgradeProposal` is the hash chain and
  the on-chain rule it is made for.
* **The entry-function codec.** `EntryFunctions` is the codec for an arbitrary table, `SdkTables` the
  71 functions of the current SDK, `SdkVersions` the version-six and version-seven tables,
  `SdkBuilders` some payload builders in bytes.
* **Two checks.** `TransactionManifest` (backup manifests) and `GenesisAudit` (the migration audit
  and the validator-set check).

Code that the repository writes with loops and mutable state is a method or a class here, proved
against a function; the theorems are about those functions. `Common` holds the shared types, `Hex`
hexadecimal digits and texts.

## What the model shows about the code

* **Manifests can wrap around.** The release profile does not check integer overflow (development
  builds panic instead), so `chunk.last_version + 1` wraps. `Verify` accepts exactly the manifests
  whose chunks are linked modulo 2^64; these are the true partitions of the range if and only if no
  chunk but the last ends at the largest version (`LinkedIffPartition`). `[5, 2^64-1], [0, 7]` for the
  range 5 to 7 is accepted and is no partition (`WrapAroundAccepted`).
* **The fallback commit cannot compile.** Without a git repository the builder panics; in a repository
  whose head names no commit it uses the commit text `none`, and the script then contains `x"none"`,
  which is no byte-string literal (`NoCommitDoesNotCompile`).
* **Only accounts below ten are addressed correctly.** The author prints an account's hexadecimal
  digits without `0x`, which Move reads as a decimal number. A script for an account with a digit
  above nine does not compile, and one for `0x10` acts for account ten: the printed address names its
  own account if and only if that is below ten (`PrintedNames`). The upgrade command always uses `0x1`.
* So a script compiles exactly when the printed address has decimal digits only and the commit text is
  an even number of hexadecimal digits and nothing else, not even white space
  (`AuthoredScriptPublishes`), and the whole command finishes exactly when there is a repository, all
  packages build and, with any module at all, the head names a commit (`MakeUpgradeArtifacts`).
* **Nine levels can be written but not read back** (`WrittenReadsBack`, `DecodeAfterEncode`).
* **The `account is None` report of the audit is unreachable**: `strip_system_address` unwraps the
  account first and panics. The same function drops, besides the addresses below 16, those that are
  zero after their first hexadecimal digit (`IsSystemExact`).
* **A version-six `create_proposal_v2` payload can be misread by version seven**, with every argument
  one place off, when the stake pool starts with byte 31 and the metadata hash is empty
  (`CreateProposalV2`).
* **The joined dispatch key is ambiguous** (`AmbiguousPayload`), so only decode-after-encode holds,
  and it holds for a table exactly when its keys are distinct (`RoundTripIffDistinctKeys`).
  Encode-after-decode gives a payload back exactly when it has the core address, the names of the row
  it dispatches to, and no surplus arguments (`EncodeAfterDecode`).
* **A next hash spelling `vector::empty<u8>()` would be replaced by the empty vector**; the builder
  only passes 0 or 32 bytes, so this 19-byte case is never taken (`AuthoredScriptPublishes`,
  `MakeStep`).
* The comment on `from_hex_literal` calls the `0x` prefix optional; the code requires it, and the
  model follows the code (`ParseLiteralExact`).

## Model

| member | source | states |
|---|---|---|
| Bcs.UlebRoundTrip | compatibility/src/version_five/hash_value_v5.rs:34 | every 32-bit length or variant index is read back from its ULEB128 bytes, whatever follows ("ULEB128-Encoded Integers" of the BCS specification) |
| Bcs.UlebCanonical | compatibility/src/version_five/hash_value_v5.rs:34 | whatever the ULEB128 reader accepts is the shortest encoding of a 32-bit value |
| Bcs.UlebDigits | compatibility/src/version_five/hash_value_v5.rs:34 | the bytes of a length or index are its base-128 digits, low one first, with the high bit set on all but the last |
| Bcs.KnownUlebs | compatibility/src/version_five/hash_value_v5.rs:34 | the bytes of 0, 127, 128 and 300 |
| Bcs.BytesRoundTrip | compatibility/src/version_five/language_storage_v5.rs:41-47 | length-prefixed names and byte strings are read back with the exact suffix |
| Bcs.BytesCanonical | compatibility/src/version_five/language_storage_v5.rs:41-47 | a byte string that is read was written by the writer, byte for byte |
| Bcs.LeBytesInvertsLeValue | compatibility/src/version_five/event_v5.rs:46-48 | any bytes are the little-endian form of their value, which fits their width |
| Bcs.LeValueConcat | compatibility/src/version_five/event_v5.rs:46-48 | later bytes weigh more: the value of two strings joined is that of the first plus 256 to its length times that of the second |
| Bcs.LeBytesOfByte | compatibility/src/version_five/event_v5.rs:59-63 | a number below 256 is that byte followed by seven zeros |
| Utf8Text.Utf8Exact | compatibility/src/version_five/language_storage_v5.rs:42-47 | the check on identifiers that are read accepts exactly the UTF-8 encodings of sequences of Unicode scalar values |
| TypeTags.VariantNumbers | compatibility/src/version_five/language_storage_v5.rs:18-39 | the number of each variant, so that `vector<u8>` is the bytes 6, 1 |
| TypeTags.WriteExact | compatibility/src/version_five/safe_serialize_v5.rs:20-44 | from any depth, writing a type tag succeeds exactly when depth plus nesting is at most 9 (and lengths fit BCS), and then yields the tag's bytes |
| TypeTags.WriteStructExact | compatibility/src/version_five/safe_serialize_v5.rs:20-44 | the same for struct tags, whose own level is not guarded |
| TypeTags.ReadExact | compatibility/src/version_five/safe_serialize_v5.rs:46-69 | on every byte string, at every depth and limit, the reader returns a tag and a suffix if and only if the tag fits under the limit and the input is that tag's encoding followed by that suffix |
| TypeTags.ReadStructExact | compatibility/src/version_five/safe_serialize_v5.rs:46-69 | the same if-and-only-if for struct tags |
| TypeTags.EncodingUnique | compatibility/src/version_five/language_storage_v5.rs:17-39 | at any nesting, no tag's bytes are a prefix of another tag's |
| TypeTags.StructEncodingUnique | compatibility/src/version_five/language_storage_v5.rs:41-47 | the same for struct tags with any number of parameters |
| TypeTags.WrittenReadsBack | compatibility/src/version_five/safe_serialize_v5.rs:54-55 | what was written at a depth is read back there exactly when depth plus nesting is at most 8, and is rejected exactly when it is 9 |
| TypeTags.WrittenStructReadsBack | compatibility/src/version_five/safe_serialize_v5.rs:54-55 | the same for struct tags |
| TagCodec.CodecThread.Enter | compatibility/src/version_five/safe_serialize_v5.rs:27-37 | the counter is raised exactly below the limit and is untouched otherwise |
| TagCodec.CodecThread.SerializeType | compatibility/src/version_five/safe_serialize_v5.rs:20-44 | the stateful writer appends exactly the specified bytes or reports the specified error, and on every path the counter returns to its start and never passes 9 |
| TagCodec.CodecThread.SerializeStruct | compatibility/src/version_five/language_storage_v5.rs:41-47 | the same for the derived struct serializer |
| TagCodec.CodecThread.SerializeAll | compatibility/src/version_five/language_storage_v5.rs:46-46 | the same for the parameter loop, including a failure deep inside one parameter |
| TagCodec.CodecThread.DeserializeType | compatibility/src/version_five/safe_serialize_v5.rs:46-69 | the stateful reader consumes exactly what the specification reads or reports its error, with the counter balanced on every path |
| TagCodec.CodecThread.GuardedType | compatibility/src/version_five/safe_serialize_v5.rs:46-69 | the guard around a vector element: refused from depth 8 on, otherwise one level deeper, and undone afterwards |
| TagCodec.CodecThread.GuardedStruct | compatibility/src/version_five/safe_serialize_v5.rs:46-69 | the guard around a struct, likewise |
| TagCodec.CodecThread.DeserializeStruct | compatibility/src/version_five/language_storage_v5.rs:41-47 | the stateful struct reader agrees with its specification and leaves the counter balanced |
| TagCodec.CodecThread.DeserializeAll | compatibility/src/version_five/language_storage_v5.rs:46-46 | the parameter loop reads exactly the announced number of tags in order |
| TagCodec.CodecThread.Serve | compatibility/src/version_five/safe_serialize_v5.rs:16-18 | over any sequence of encodings and decodings, failed ones included, every request is answered as by a fresh thread |
| TagCodec.DecodeAfterEncode | compatibility/src/version_five/language_storage_v5.rs:41-54 | a whole message decodes to the encoded tag exactly when its parameters nest at most eight deep, and never to another tag |
| TagCodec.FromBytesInjective | compatibility/src/version_five/language_storage_v5.rs:41-47 | distinct byte strings never decode to the same tag |
| AccountState.AccessVector | compatibility/src/version_five/language_storage_v5.rs:50-54 | the buffer filled by the stateful serializer is the resource key, and the counter ends at zero |
| AccountState.ResourceKeyExact | compatibility/src/version_five/language_storage_v5.rs:50-54 | a struct tag has a key exactly when its parameters nest at most nine deep and its parts fit BCS; otherwise `access_vector` panics |
| AccountState.ResourceKeysPrefixFree | compatibility/src/version_five/language_storage_v5.rs:50-54 | no resource key is a prefix of the key of a different struct tag |
| AccountState.ModuleKeysPrefixFree | compatibility/src/version_five/language_storage_v5.rs:112-116 | no module key is a prefix of the key of a different module |
| AccountState.KeySpacesDisjoint | compatibility/src/version_five/language_storage_v5.rs:50-54 | a resource key and a module key are never prefixes of one another |
| AccountState.LookupAgrees | compatibility/src/version_five/account_blob_v5.rs:23-47 | after storing any resources and modules in any order, lookup by bytes agrees with a map keyed by struct tags |
| AccountState.KnownDiemAccountKey | compatibility/src/version_five/state_snapshot_v5.rs:209-218 | the key of `DiemAccount` is the recorded byte string |
| AccountState.KnownBalanceKey | compatibility/src/version_five/state_snapshot_v5.rs:226-229 | the key of `Balance<GAS>` is the recorded byte string |
| AccountState.ShortModuleKey | compatibility/src/version_five/language_storage_v5.rs:112-116 | the bytes of the key of a module with a short name |
| LegacyAddress.FormatLowerHex | compatibility/src/version_five/legacy_address_v5.rs:138-150 | the formatting loop writes two lower-case digits per byte in order |
| Hex.DigitTable | compatibility/src/version_five/legacy_address_v5.rs:144-146 | the sixteen lower-case digits, and the values of the digits of both cases |
| Hex.KnownHexText | compatibility/src/version_five/legacy_address_v5.rs:144-146 | the high half of each byte comes first |
| LegacyAddress.FromHexLiteral | compatibility/src/version_five/legacy_address_v5.rs:62-80 | the padding loop computes the specified parse on every string |
| LegacyAddress.ShortStrValue | compatibility/src/version_five/legacy_address_v5.rs:42-49 | the trimmed text has 1 to 32 hexadecimal digits with the address's big-endian value |
| LegacyAddress.ShortStrInjective | compatibility/src/version_five/legacy_address_v5.rs:42-49 | trimming loses nothing: different addresses have different short texts |
| LegacyAddress.ParseLiteralExact | compatibility/src/version_five/legacy_address_v5.rs:62-92 | a text parses to an address if and only if it is `0x` and at most 32 hexadecimal digits of either case with that big-endian value |
| LegacyAddress.LiteralRoundTrip | compatibility/src/version_five/legacy_address_v5.rs:62-85 | every address, zero included, is recovered from its literal |
| TagDisplay.Formatter.WriteType | compatibility/src/version_five/language_storage_v5.rs:146-159 | the recursive formatter appends exactly the printed form of a type tag |
| TagDisplay.Formatter.WriteStruct | compatibility/src/version_five/language_storage_v5.rs:125-133 | and of a struct tag |
| TagDisplay.Formatter.WriteParams | compatibility/src/version_five/language_storage_v5.rs:134-141 | the parameter loop puts brackets around and commas between the parameters |
| TagDisplay.DisplayShape | compatibility/src/version_five/language_storage_v5.rs:125-144 | how any struct prints: path, and around its parameters, if any, brackets with commas between them |
| TagDisplay.DisplayTexts | compatibility/src/version_five/language_storage_v5.rs:148-157 | the words for the primitive types and vectors |
| TagDisplay.ShowUnique | compatibility/src/version_five/language_storage_v5.rs:125-159 | followed by nothing, a comma or a closing bracket, the printed form of a tag whose names hold no separator can be split off in only one way |
| TagDisplay.DisplayInjective | compatibility/src/version_five/language_storage_v5.rs:125-159 | two tags that print alike are equal, at any nesting and arity, when no name holds a colon, comma or bracket; names of letters, digits and underscores are a case of this |
| TagDisplay.SeparatorInNameIsAmbiguous | compatibility/src/version_five/language_storage_v5.rs:127-133 | colons must be excluded: names holding them give different tags with one text |
| TagDisplay.BracketInNameIsAmbiguous | compatibility/src/version_five/language_storage_v5.rs:134-141 | brackets must be excluded: a name can spell out any parameter |
| TagDisplay.CommaInNameIsAmbiguous | compatibility/src/version_five/language_storage_v5.rs:137-139 | commas must be excluded: the name of a parameter can spell out the next one |
| DiemAccount.NewFromAddress | compatibility/src/version_five/event_v5.rs:59-65 | filling the zeroed buffer gives the little-endian counter followed by the address |
| DiemAccount.EventKeyBijection | compatibility/src/version_five/event_v5.rs:40-65 | event keys and pairs of address and 64-bit counter correspond one to one |
| DiemAccount.AccountRoundTrip | compatibility/src/version_five/diem_account_v5.rs:20-27 | the stored bytes of a legacy account read back field by field, whatever follows |
| DiemAccount.AccountLayout | compatibility/src/version_five/diem_account_v5.rs:20-27 | where every part of a stored legacy account lies, by position |
| DiemAccount.CapabilityLayout | compatibility/src/version_five/diem_account_v5.rs:22-23 | where a withdrawal capability lies and that it comes before the key rotation one |
| DiemAccount.AccountResourceRoundTrip | compatibility/src/version_five/core_account_v5.rs:16-20 | a new-style account is read as key, sequence number and address, in that order |
| DiemAccount.AddressNeverFails | compatibility/src/version_five/diem_account_v5.rs:77-87 | the detour through the hex literal never fails and reports the address the sent-events key was made from |
| DiemAccount.CoreTagsUsable | compatibility/src/version_five/move_resource_v5.rs:28-35 | the tags of the new-style and the legacy account are different and both have storage keys |
| DiemAccount.AccountLookupNeverPanics | compatibility/src/version_five/account_blob_v5.rs:63-75 | on no account state at all does the lookup panic |
| DiemAccount.AccountLookupExact | compatibility/src/version_five/account_blob_v5.rs:49-75 | for any stored entries: a readable new-style account wins, else a readable legacy account is reported with its key, sequence number and creator, else nothing is found |
| DiemAccount.CurrentAccountFound | compatibility/src/version_five/account_blob_v5.rs:63-65 | a new-style account just stored is what the lookup reports, beside any legacy one |
| DiemAccount.LegacyAccountFound | compatibility/src/version_five/account_blob_v5.rs:66-71 | without a new-style account, a legacy account is found right after it was stored beside anything else |
| HashValue.BitIterator.Next | compatibility/src/version_five/hash_value_v5.rs:431-447 | each call yields the next bit and advances, and a finished iterator stays finished |
| HashValue.IterBits | compatibility/src/version_five/hash_value_v5.rs:222-224 | draining a fresh iterator gives the 256 bits in order |
| HashValue.FromBitIter | compatibility/src/version_five/hash_value_v5.rs:227-241 | exactly the sequences of 256 bits are accepted, and the built hash has those bits |
| HashValue.Rebuild | compatibility/src/version_five/hash_value_v5.rs:222-241 | building from a hash's own bits returns that hash |
| HashValue.BitsInjective | compatibility/src/version_five/hash_value_v5.rs:206-211 | a hash is determined by its bits |
| HashValue.NibbleIsFourBits | compatibility/src/version_five/hash_value_v5.rs:206-219 | each nibble is the big-endian value of its four bits |
| HashValue.AgreeingPrefixExact | compatibility/src/version_five/hash_value_v5.rs:244-249 | the count is the length of the longest common prefix |
| HashValue.CommonPrefixFullIffEqual | compatibility/src/version_five/hash_value_v5.rs:244-249 | the common prefix is 256 bits long exactly for equal hashes |
| HashValue.CommonPrefixUltrametric | compatibility/src/version_five/hash_value_v5.rs:244-249 | the common prefix length is symmetric and satisfies the ultrametric inequality |
| HashValue.OrderDecidedByFirstBit | compatibility/src/version_five/hash_value_v5.rs:123-126 | for unequal hashes the derived byte-wise order is decided by the bit right after the common prefix |
| TransactionManifest.Walk | compatibility/src/version_five/transaction_manifest_v5.rs:49-64 | the loop goes through exactly when every chunk is in order, and else reports the first one that is not |
| TransactionManifest.Verify | compatibility/src/version_five/transaction_manifest_v5.rs:37-75 | accepts exactly the linked manifests; each rejection names what is wrong, and the first chunk that is out of order |
| TransactionManifest.LinkedIffPartition | compatibility/src/version_five/transaction_manifest_v5.rs:49-73 | on every manifest: linked and without an early maximum if and only if every version of the range is in exactly one chunk, chunks increase and none leaves the range |
| TransactionManifest.WrapAroundAccepted | compatibility/src/version_five/transaction_manifest_v5.rs:63-63 | a family of accepted manifests that are no partition, because the successor wraps |
| TransactionManifest.SizesAddUp | compatibility/src/version_five/transaction_manifest_v5.rs:27-34 | the chunk sizes of a partition sum to `last - first + 1` |
| GenesisAudit.IsSystemExact | compatibility/src/legacy_recovery_v6.rs:140-147 | which addresses contain the run of 63 zeros: those below 16, and those zero after the first digit |
| GenesisAudit.StripExact | compatibility/src/legacy_recovery_v6.rs:140-147 | panics exactly when an account is absent; otherwise keeps each non-system record as often as it occurs and nothing else |
| GenesisAudit.StripConcat | compatibility/src/legacy_recovery_v6.rs:141-146 | stripping works piece by piece and keeps the order |
| GenesisAudit.AuditOne | tools/genesis/src/compare.rs:57-130 | one record: panics exactly when a needed resource is missing, else appends its errors in order and adds its coins |
| GenesisAudit.AuditList | tools/genesis/src/compare.rs:52-130 | the loop over the stripped records: it panics exactly when some needed resource is missing, else it leaves all errors in order and the wrapped sum |
| GenesisAudit.Audit | tools/genesis/src/compare.rs:42-132 | the whole loop: when it panics, which errors it reports, and the running supply modulo 2^64 |
| GenesisAudit.AuditPanics | tools/genesis/src/compare.rs:72-108 | the audit panics if and only if some record has no account, or a compared one has no balance or lacks its slow wallet |
| GenesisAudit.ReportExact | tools/genesis/src/compare.rs:88-129 | an error is in the report if and only if it names a record that is not dropped and has a coin store, and its expected and migrated amounts are that record's and differ, or exceed, as its kind says |
| GenesisAudit.ReportOrdered | tools/genesis/src/compare.rs:52-130 | errors come by index and for one record in the order of the checks, none twice; with the previous row this determines the report |
| GenesisAudit.SupplyIsSum | tools/genesis/src/compare.rs:101-101 | the supply is the sum of the on-chain coins of the records that are not dropped and have a coin store |
| Common.WrapLaw | tools/genesis/src/compare.rs:48-48 | sums that fit in 64 bits are kept, and wrapping is modulo 2 to the 64th |
| GenesisAudit.NoErrorsIffMigrated | tools/genesis/src/compare.rs:88-129 | no errors if and only if every record was migrated: equal balance, equal unlocked amount, unlocked not above balance |
| GenesisAudit.CleanReport | tools/genesis/src/compare.rs:42-132 | a clean report means exactly that every record that is not of a system address, not dropped and has a coin store has the recovered balance and, with a slow wallet, the recovered unlocked amount, not above the balance; then the counted supply is the recovered one |
| GenesisAudit.CheckValSet | tools/genesis/src/compare.rs:238-246 | the two assertions hold exactly when lengths agree and every expected validator is on chain |
| GenesisAudit.ContainmentIsPermutation | tools/genesis/src/compare.rs:238-246 | with distinct expected validators, passing means the on-chain list is a permutation of them |
| GenesisAudit.PermutationKeepsDistinct | tools/genesis/src/compare.rs:238-246 | and then it has no duplicates either |
| GenesisAudit.ValSetCheckSound | tools/genesis/src/compare.rs:238-246 | the check guarantees a permutation, for every on-chain list, if and only if the expected validators are distinct |
| EntryFunctions.FromBytesExact | framework/cached-packages/src/libra_framework_sdk_builder.rs:2409-3278 | an argument is accepted as a value if and only if it is that value's BCS encoding, for booleans, integers, addresses and nested vectors |
| EntryFunctions.KnownValues | framework/cached-packages/src/libra_framework_sdk_builder.rs:2095-2108 | the bytes of booleans, small integers and addresses |
| EntryFunctions.DecodeArgsPointwise | framework/cached-packages/src/libra_framework_sdk_builder.rs:2409-3278 | arguments are decoded independently, each at its own position |
| EntryFunctions.BuildDecoderMap | framework/cached-packages/src/libra_framework_sdk_builder.rs:3289-3574 | the run of inserts builds the decoder map in which the last row with a key wins |
| EntryFunctions.DecodeExact | framework/cached-packages/src/libra_framework_sdk_builder.rs:875-889 | a payload decodes to a call if and only if its joined key selects the call's row and it starts with the call's type arguments and encoded arguments |
| EntryFunctions.DecodeIgnoresTheRest | framework/cached-packages/src/libra_framework_sdk_builder.rs:875-889 | the module address and anything after the expected arguments change nothing |
| EntryFunctions.EncodeAfterDecode | framework/cached-packages/src/libra_framework_sdk_builder.rs:559-889 | for every accepted payload: encoding the decoded call returns it if and only if address, names and argument counts are the row's own |
| EntryFunctions.RoundTrip | framework/cached-packages/src/libra_framework_sdk_builder.rs:559-889 | with distinct keys, decoding an encoded call returns it, for all arguments |
| EntryFunctions.RoundTripIffDistinctKeys | framework/cached-packages/src/libra_framework_sdk_builder.rs:559-889 | for every table, all calls survive the round trip if and only if the dispatch keys are distinct |
| SdkTables.CurrentKeysDistinct | framework/cached-packages/src/libra_framework_sdk_builder.rs:3289-3574 | the 71 keys of the current decoder map are pairwise distinct |
| SdkTables.CurrentRoundTrip | framework/cached-packages/src/libra_framework_sdk_builder.rs:559-889 | every call of the current SDK, with any arguments, is decoded back from its payload |
| SdkTables.AmbiguousPayload | framework/cached-packages/src/libra_framework_sdk_builder.rs:875-889 | from any address and for any argument, a payload naming `migration_migrate_offer` in `multi_action` is decoded as `migrate_offer` in `multi_action_migration`, and encoding that call gives a different payload |
| SdkBuilders.OlAccountTransferDecodes | framework/cached-packages/src/libra_framework_sdk_builder.rs:2095-2108 | the payload built from a recipient and an amount, written out in bytes, decodes to that call with those arguments |
| SdkBuilders.CoinTransferDecodes | framework/cached-packages/src/libra_framework_sdk_builder.rs:1160-1173 | the same with a type argument |
| SdkBuilders.DiemGovernanceVoteDecodes | framework/cached-packages/src/libra_framework_sdk_builder.rs:1408-1424 | the same for an integer and a boolean |
| SdkBuilders.CreateProposalV2Decodes | framework/cached-packages/src/libra_framework_sdk_builder.rs:1297-1320 | the same for three byte vectors and a boolean |
| SdkBuilders.CodePublishPackageTxnDecodes | framework/cached-packages/src/libra_framework_sdk_builder.rs:1138-1157 | the same for a byte vector and a vector of byte vectors |
| SdkBuilders.RotateWithCapabilityDecodes | framework/cached-packages/src/libra_framework_sdk_builder.rs:1094-1117 | the same for an address, a byte and two byte vectors |
| SdkBuilders.InitCommunityDecodes | framework/cached-packages/src/libra_framework_sdk_builder.rs:1221-1240 | the same for a list of addresses and an integer |
| SdkVersions.AddressAsBytes | compatibility/src/sdk/v7_libra_framework_sdk_builder.rs:2614-2627 | an address passes for a byte vector exactly when its first byte is 31, and what it then reads as |
| SdkVersions.BytesAsBool | compatibility/src/sdk/v7_libra_framework_sdk_builder.rs:2614-2627 | a byte vector passes for a boolean exactly when it is empty, and reads as false |
| SdkVersions.AddressesAsU64 | compatibility/src/sdk/v7_libra_framework_sdk_builder.rs:2550-2560 | an address list never passes for a 64-bit integer |
| SdkVersions.UnchangedCallsSurvive | compatibility/src/sdk/v6_libra_framework_sdk_builder.rs:590-939 | a version-six call of an unchanged function is decoded by version seven as the same function with the same arguments |
| SdkVersions.RetiredCallsRejected | compatibility/src/sdk/v7_libra_framework_sdk_builder.rs:3256-3537 | calls of functions version seven no longer has are never accepted |
| SdkVersions.ChangedCallsRejected | compatibility/src/sdk/v6_libra_framework_sdk_builder.rs:1254-1273 | `finalize_and_cage` and `init_payment_multisig` payloads are never accepted |
| SdkVersions.CreateProposalV2 | compatibility/src/sdk/v6_libra_framework_sdk_builder.rs:1357-1382 | a `create_proposal_v2` payload is accepted if and only if the stake pool's first byte is 31 and the metadata hash is empty, and the exact call it is mistaken for |
| SdkBuilders.CreateProposalV2AcrossVersions | compatibility/src/sdk/v6_libra_framework_sdk_builder.rs:1357-1382 | the same from the builder's own arguments and bytes |
| SdkBuilders.CreateProposalV2EncodedBySix | compatibility/src/sdk/v6_libra_framework_sdk_builder.rs:1357-1382 | those bytes are what version six encodes the call to |
| SdkBuilders.FinalizeAndCageAcrossVersions | compatibility/src/sdk/v6_libra_framework_sdk_builder.rs:1254-1273 | the bytes of the version-six builder for any address list are what version six encodes, and version seven never accepts them |
| SdkBuilders.InitPaymentMultisigAcrossVersions | compatibility/src/sdk/v6_libra_framework_sdk_builder.rs:2215-2228 | the same for the builder without arguments |
| SdkVersions.AcceptedByV7 | compatibility/src/sdk/v7_libra_framework_sdk_builder.rs:877-892 | over all 72 version-six functions and all arguments: exactly which payloads version seven accepts |
| MoveText.SqueezeConcat | framework/src/builder/framework_release_bundle.rs:8-20 | text emitted piece by piece shows the pieces one after the other, when each follows punctuation, starts with it or directly continues a word |
| MoveText.SpaceBetween | framework/src/builder/framework_release_bundle.rs:33-115 | what the comparison of texts ignores: white space next to punctuation, and how much of it stands between two words |
| MoveText.KnownDecimals | framework/src/builder/framework_release_bundle.rs:15-15 | how bytes are written in decimal |
| MoveText.KnownItems | framework/src/builder/framework_release_bundle.rs:15-15 | what the elements of a vector literal look like |
| MoveText.QuotedInkExact | framework/src/builder/framework_release_bundle.rs:106-110 | between quotation marks a text shows as hexadecimal digits if and only if it is, so no white space in it goes unnoticed |
| MoveText.ReadItemsInvertsItems | framework/src/builder/framework_release_bundle.rs:8-20 | the elements of a vector literal read back as exactly the bytes written |
| MoveScript.ReadResolveExact | framework/src/builder/framework_release_bundle.rs:120-148 | the resolve call is read exactly when its address is printed with decimal digits only, and then names the account with that decimal number and the next hash written |
| MoveScript.ReadStmtInverts | framework/src/builder/framework_release_bundle.rs:63-104 | each generated statement between the first and the last is read back from its visible text, whatever follows |
| MoveScript.StatementTexts | framework/src/builder/framework_release_bundle.rs:63-104 | the words of every statement between the first and the last, as the author writes them |
| MoveScript.FrameTexts | framework/src/builder/framework_release_bundle.rs:51-58 | the words of the opening, the resolve call and the closing statement |
| MoveScript.StepEffects | framework/src/builder/framework_release_bundle.rs:67-104 | what binding, pushing, appending and publishing do |
| MoveScript.LetNeedsSpace | framework/src/builder/framework_release_bundle.rs:63-63 | a `let` that runs into the next word is not read |
| MoveScript.ReadGitExact | framework/src/builder/framework_release_bundle.rs:106-115 | the closing statement reads back exactly when its commit is an even number of hexadecimal digits |
| Hex.HexTextExact | framework/src/builder/framework_generate_upgrade_proposal.rs:227-232 | the hexadecimal text of a commit id is a literal of exactly that id |
| MoveScript.ReadAllExact | framework/src/builder/framework_release_bundle.rs:58-115 | a whole list of statements and the closing one reads back exactly when the commit is hexadecimal |
| ReleaseBundle.ChunksExact | framework/src/builder/framework_release_bundle.rs:77-91 | `len / 32767 + 1` chunks, none above 32767 bytes, the last strictly below, and joined in order they are the metadata |
| ReleaseBundle.Numbering | framework/src/builder/framework_release_bundle.rs:65-99 | modules are numbered from zero, metadata chunks from one, and the chunks from two on are appended in order |
| ReleaseBundle.BodyRuns | framework/src/builder/framework_release_bundle.rs:63-110 | running the intended statements never fails, publishes exactly the metadata and code list, and passes on the next hash and the commit |
| ScriptAuthor.PrintedNames | framework/src/builder/framework_release_bundle.rs:128-139 | an account printed without `0x` is a decimal number naming that same account if and only if the account is below ten |
| ScriptAuthor.CoreAddressNamed | framework/src/builder/framework_generate_upgrade_proposal.rs:11-13 | the deploy address is printed as the number of account one |
| ScriptAuthor.GenerateBlob | framework/src/builder/framework_release_bundle.rs:8-20 | wherever the line breaks fall, the visible text is the literal of exactly these bytes |
| ScriptAuthor.GenerateNextExecutionHash | framework/src/builder/framework_release_bundle.rs:120-148 | the visible text is the resolve call with the address and the next hash, or the empty vector for the sentinel bytes |
| ScriptAuthor.EmitCode | framework/src/builder/framework_release_bundle.rs:65-71 | the code loop emits a binding and a push for every module in order |
| ScriptAuthor.DrainChunk | framework/src/builder/framework_release_bundle.rs:82-87 | every drain is in range and takes exactly the next chunk |
| ScriptAuthor.EmitMetadata | framework/src/builder/framework_release_bundle.rs:77-91 | the draining loop emits one numbered binding per chunk of the metadata |
| ScriptAuthor.EmitAppends | framework/src/builder/framework_release_bundle.rs:93-99 | the append loop emits the appends of chunks 2 and up in order |
| ScriptAuthor.AuthorScript | framework/src/builder/framework_release_bundle.rs:51-116 | for any package, address, next hash and commit text: the emitted text compiles exactly when the printed address has decimal digits only and the commit is a hexadecimal literal, and then to the intended statements |
| ScriptAuthor.AuthoredText | framework/src/builder/framework_release_bundle.rs:51-148 | the visible text of the whole script in the author's words, with the address, the next hash and the commit in their places, and the sentinel case |
| ScriptAuthor.AuthoredScriptReads | framework/src/builder/framework_release_bundle.rs:22-118 | any layout of the authored text reads back as the intended statements, or not at all when the address has a digit above nine or the commit is not hexadecimal |
| ScriptAuthor.AuthoredScriptPublishes | framework/src/builder/framework_release_bundle.rs:22-118 | any layout of the authored text compiles exactly when the printed address has decimal digits only and the commit is a hexadecimal literal; what it is read as, when run, publishes exactly the package, records the commit, acts for the given account exactly when that is below ten, and hands on the next hash exactly when that is not the sentinel text |
| ScriptAuthor.NoCommitDoesNotCompile | framework/src/builder/framework_generate_upgrade_proposal.rs:33-34 | no layout of a script with the fallback commit compiles |
| UpgradeProposal.OnlyRun | framework/src/builder/framework_generate_upgrade_proposal.rs:45-129 | once the first script is approved, the possible runs are exactly the prefixes of the chain in deploy order, the state after each is known, and only the full chain ends the proposal |
| UpgradeProposal.ChainPublishes | framework/src/builder/framework_generate_upgrade_proposal.rs:103-111 | the k-th script publishes the k-th package |
| UpgradeProposal.EndedPublishesAll | framework/src/builder/framework_generate_upgrade_proposal.rs:45-129 | a run that ends the proposal has published every package, once each and in order |
| UpgradeProposal.MakeStep | framework/src/builder/framework_generate_upgrade_proposal.rs:76-128 | one turn of the loop succeeds exactly when the package builds and the address and the commit compile, and yields the compiled step script and its hash |
| UpgradeProposal.MakeArtifacts | framework/src/builder/framework_generate_upgrade_proposal.rs:38-131 | the reversing loop succeeds exactly when every package builds and, with any module at all, the address and the commit compile, and leaves, in reverse deploy order, the chain in which each script carries the hash of its successor |
| UpgradeProposal.GitHeadExact | framework/src/builder/framework_generate_upgrade_proposal.rs:227-232 | the lookup panics exactly without a repository; its text is a hexadecimal literal exactly when the head names a commit, and then stands for that commit |
| UpgradeProposal.MakeUpgradeArtifacts | framework/src/builder/framework_generate_upgrade_proposal.rs:27-132 | the whole command, with the default modules when none are given: when it panics, when it finishes, and that it leaves the chain for account one with every script recording the head's commit |
| UpgradeProposal.ArtifactsRunInOrder | framework/src/builder/framework_generate_upgrade_proposal.rs:38-131 | approving the hash of the artifact made last, the proposal ends if and only if the artifacts run in the caller's module order, and that publishes each package once in that order |

## Left out

- SHA3, ed25519, BLS and Move compilation: the script hash is a parameter. It is not assumed injective, which no 32-byte hash is; the chain theorems assume only that no script of the run collides with a different script of the chain.
- The Move compiler and VM: scripts are the statement forms the author emits, read by a reader for those forms. A text outside these forms counts as not compiling.
- The `CodeWriter` library is not part of this model: indentation is white space. White space counts between the characters of words and inside quotation marks, and not next to punctuation, so the reader does not notice a mark of two characters such as `::` that falls apart.
- The comment lines in front of `script {`, and the comment that carries the hash in the formatted script.
- AuthoredScriptPublishes: a commit text holding a quotation mark counts as not compiling. It could close the literal and go on with statements of its own, which the reader does not cover.
- That digits after `@` without `0x` are a decimal number is taken from the Move language; its parser is not part of this model.
- Package building, build options and the incompatible-upgrade flag: `build` is a parameter from module names to packages, and a package is its metadata bytes and code.
- Metadata serialization inside the author: the metadata bytes are given.
- The in-place `reverse` of the module list is modelled as a new sequence.
- `write_to_file` and temporary directories; of the git lookup only its three outcomes are modelled.
- The on-chain governance module is not part of this model; its rule is the documented one: only a script whose hash is approved runs, its next hash is approved in turn, an empty one ends the proposal.
- The BCS limit of 500 nested containers: the nesting limits of tags are far below it.
- Identifiers are UTF-8 byte strings; the identifier grammar of the Move core types is not part of this model, so the codec theorems hold for more names than occur.
- SdkTables: the rows that no builder of `SdkBuilders` uses are a table only; the generated builder and decoder of each of them are not written out one by one.
- Type arguments of entry functions pass through as opaque values, and the other kinds of transaction payload are one case.
- The version-six and version-seven tables list the generated functions in another order than their files do; with distinct keys the order of inserts does not matter.
- Human-readable serialization, random constructors and accessors of the legacy types.
- `next_back` of the bit iterator: it shrinks the end that `get_bit` asserts to be 256.
- Decoding of the account blob into its map, and the snapshot and transaction chunk readers.
- The plain resource structs, the transaction view, and the display of module ids.
- The database behind the audit is two maps, of coin stores and slow wallets; the validator set is a list. Genesis reading, `check_supply` and the exported report are not modelled.
- The audit's running supply is computed and dropped by the code; the model returns it so that something can be said about it. In builds with overflow checks the sum would panic instead of wrapping.
- `genesis_functions.rs`, `genesis_builder.rs`, configuration, clients, command lines and smoke tests.
