/** Payload builders of the generated SDK, written out byte for byte, and what the decoders make of
    their payloads: one builder for every kind of argument, and the three whose signature changed. */
module SdkBuilders {
  import opened Common
  import opened Bcs
  import opened EntryFunctions
  import opened SdkTables
  import opened SdkVersions

  /** An entry function of a core module. */
  function Core(moduleName: string, function_: string, typeArgs: seq<TypeArg>, args: seq<seq<byte>>): Payload {
    EntryFunction([0, 0, 0, 0, 0, 0, 0, 0, 0, 0, 0, 0, 0, 0, 0, 0, 0, 0, 0, 0, 0, 0, 0, 0, 0, 0, 0, 0, 0, 0, 0, 1],
                  moduleName, function_, typeArgs, args)
  }

  function BoolBytes(b: bool): seq<byte> { if b then [1] else [0] }

  predicate Short(bs: seq<byte>) { |bs| < 0x8000_0000 }

  predicate AllShort(bss: seq<seq<byte>>) {
    |bss| < 0x8000_0000 && forall i :: 0 <= i < |bss| ==> Short(bss[i])
  }

  function VectorOfBytes(bss: seq<seq<byte>>): seq<byte> { WriteUleb(|bss|) + WriteAllBytes(bss) }

  function VectorOfAccounts(accounts: seq<Account>): seq<byte> { WriteUleb(|accounts|) + Concat(accounts) }

  lemma AccountsValue(accounts: seq<Account>)
    requires |accounts| < 0x8000_0000
    ensures var v := VVec(Accounts(accounts));
            HasType(v, TVec(TAddress)) && Sized(v) && ToBytes(v) == VectorOfAccounts(accounts)
  {
    AccountsEncode(accounts);
  }

  lemma TwoArguments(a: Value, b: Value)
    ensures EncodeArgs([a, b]) == [ToBytes(a), ToBytes(b)]
  {
  }

  /** A payload with the names of a row and the arguments of a call decodes to that call. */
  lemma Dispatched(p: Payload, c: Call)
    requires IsCall(Current(), c) && ArgsSized(c.args)
    requires var row := CurrentRow(c.row);
             p == Core(row.moduleName, row.function_, c.typeArgs, EncodeArgs(c.args))
    ensures Decode(Current(), p) == Some(c) && Encode(Current(), c) == Some(p)
  {
    CurrentRoundTrip(c);
  }

  // ----- The current SDK -----

  function OlAccountTransfer(to: Account, amount: u64): Payload {
    Core("ol_account", "transfer", [], [to, LeBytes(amount, 8)])
  }

  lemma OlAccountTransferDecodes(to: Account, amount: u64)
    ensures Decode(Current(), OlAccountTransfer(to, amount)) == Some(Call(55, [], [VAddress(to), VU64(amount)]))
  {
    var c := Call(55, [], [VAddress(to), VU64(amount)]);
    assert EncodeArgs(c.args) == [to, LeBytes(amount, 8)];
    Dispatched(OlAccountTransfer(to, amount), c);
  }

  function CoinTransfer(coin: TypeArg, to: Account, amount: u64): Payload {
    Core("coin", "transfer", [coin], [to, LeBytes(amount, 8)])
  }

  lemma CoinTransferDecodes(coin: TypeArg, to: Account, amount: u64)
    ensures Decode(Current(), CoinTransfer(coin, to, amount)) == Some(Call(10, [coin], [VAddress(to), VU64(amount)]))
  {
    var c := Call(10, [coin], [VAddress(to), VU64(amount)]);
    assert EncodeArgs(c.args) == [to, LeBytes(amount, 8)];
    Dispatched(CoinTransfer(coin, to, amount), c);
  }

  function DiemGovernanceVote(proposalId: u64, shouldPass: bool): Payload {
    Core("diem_governance", "vote", [], [LeBytes(proposalId, 8), BoolBytes(shouldPass)])
  }

  lemma DiemGovernanceVoteDecodes(proposalId: u64, shouldPass: bool)
    ensures Decode(Current(), DiemGovernanceVote(proposalId, shouldPass)) ==
            Some(Call(22, [], [VU64(proposalId), VBool(shouldPass)]))
  {
    var c := Call(22, [], [VU64(proposalId), VBool(shouldPass)]);
    assert EncodeArgs(c.args) == [LeBytes(proposalId, 8), BoolBytes(shouldPass)];
    Dispatched(DiemGovernanceVote(proposalId, shouldPass), c);
  }

  function CreateProposalV2Payload(hash: seq<byte>, location: seq<byte>, metadata: seq<byte>, multiStep: bool): Payload
  {
    Core("diem_governance", "create_proposal_v2", [],
         [WriteBytes(hash), WriteBytes(location), WriteBytes(metadata), BoolBytes(multiStep)])
  }

  lemma CreateProposalV2Decodes(hash: seq<byte>, location: seq<byte>, metadata: seq<byte>, multiStep: bool)
    requires Short(hash) && Short(location) && Short(metadata)
    ensures Decode(Current(), CreateProposalV2Payload(hash, location, metadata, multiStep)) ==
            Some(Call(17, [], [Bytes(hash), Bytes(location), Bytes(metadata), VBool(multiStep)]))
  {
    BytesEncode(hash);
    BytesEncode(location);
    BytesEncode(metadata);
    var c := Call(17, [], [Bytes(hash), Bytes(location), Bytes(metadata), VBool(multiStep)]);
    assert EncodeArgs(c.args) == [WriteBytes(hash), WriteBytes(location), WriteBytes(metadata), BoolBytes(multiStep)];
    Dispatched(CreateProposalV2Payload(hash, location, metadata, multiStep), c);
  }

  function CodePublishPackageTxn(metadata: seq<byte>, code: seq<seq<byte>>): Payload {
    Core("code", "publish_package_txn", [], [WriteBytes(metadata), VectorOfBytes(code)])
  }

  lemma CodePublishPackageTxnDecodes(metadata: seq<byte>, code: seq<seq<byte>>)
    requires Short(metadata) && AllShort(code)
    ensures Decode(Current(), CodePublishPackageTxn(metadata, code)) ==
            Some(Call(9, [], [Bytes(metadata), VVec(AllBytes(code))]))
  {
    BytesEncode(metadata);
    AllBytesEncode(code);
    var c := Call(9, [], [Bytes(metadata), VVec(AllBytes(code))]);
    assert EncodeArgs(c.args) == [WriteBytes(metadata), VectorOfBytes(code)];
    Dispatched(CodePublishPackageTxn(metadata, code), c);
  }

  function RotateWithCapability(offerer: Account, scheme: byte, key: seq<byte>, update: seq<byte>): Payload {
    Core("account", "rotate_authentication_key_with_rotation_capability", [],
         [offerer, [scheme], WriteBytes(key), WriteBytes(update)])
  }

  lemma RotateWithCapabilityDecodes(offerer: Account, scheme: byte, key: seq<byte>, update: seq<byte>)
    requires Short(key) && Short(update)
    ensures Decode(Current(), RotateWithCapability(offerer, scheme, key, update)) ==
            Some(Call(7, [], [VAddress(offerer), VU8(scheme), Bytes(key), Bytes(update)]))
  {
    BytesEncode(key);
    BytesEncode(update);
    var c := Call(7, [], [VAddress(offerer), VU8(scheme), Bytes(key), Bytes(update)]);
    assert EncodeArgs(c.args) == [offerer, [scheme], WriteBytes(key), WriteBytes(update)];
    Dispatched(RotateWithCapability(offerer, scheme, key, update), c);
  }

  function InitCommunity(authorities: seq<Account>, signers: u64): Payload {
    Core("community_wallet_init", "init_community", [], [VectorOfAccounts(authorities), LeBytes(signers, 8)])
  }

  lemma InitCommunityDecodes(authorities: seq<Account>, signers: u64)
    requires |authorities| < 0x8000_0000
    ensures Decode(Current(), InitCommunity(authorities, signers)) ==
            Some(Call(13, [], [VVec(Accounts(authorities)), VU64(signers)]))
  {
    AccountsValue(authorities);
    InitCommunityOf(VVec(Accounts(authorities)), signers);
  }

  lemma InitCommunityOf(list: Value, signers: u64)
    requires HasType(list, TVec(TAddress)) && Sized(list)
    ensures var p := Core("community_wallet_init", "init_community", [], [ToBytes(list), LeBytes(signers, 8)]);
            Decode(Current(), p) == Some(Call(13, [], [list, VU64(signers)]))
  {
    TwoArguments(list, VU64(signers));
    Dispatched(Core("community_wallet_init", "init_community", [], [ToBytes(list), LeBytes(signers, 8)]),
               Call(13, [], [list, VU64(signers)]));
  }

  // ----- Version-six payloads, decoded by version seven -----

  function CreateProposalV2PayloadV6(stakePool: Account, hash: seq<byte>, location: seq<byte>, metadata: seq<byte>,
                                     multiStep: bool): Payload {
    Core("diem_governance", "create_proposal_v2", [],
         [stakePool, WriteBytes(hash), WriteBytes(location), WriteBytes(metadata), BoolBytes(multiStep)])
  }

  /** The builder's own payload: accepted exactly when the stake pool starts with 31 and the metadata
      hash is empty, with every argument read one place off. */
  lemma CreateProposalV2AcrossVersions(stakePool: Account, hash: seq<byte>, location: seq<byte>, metadata: seq<byte>,
                                       multiStep: bool)
    requires Short(hash) && Short(location) && Short(metadata)
    ensures Decode(V7(), CreateProposalV2PayloadV6(stakePool, hash, location, metadata, multiStep)) ==
            if stakePool[0] == 31 && metadata == []
            then Some(Call(17, [], [Bytes(stakePool[1..]), Bytes(hash), Bytes(location), VBool(false)])) else None
  {
    BytesEncode(hash);
    BytesEncode(location);
    BytesEncode(metadata);
    var p := CreateProposalV2PayloadV6(stakePool, hash, location, metadata, multiStep);
    var vs := [VAddress(stakePool), Bytes(hash), Bytes(location), Bytes(metadata), VBool(multiStep)];
    assert p.args == EncodeArgs(vs);
    ProposalDispatch(p);
    ProposalArgsShifted(stakePool, Bytes(hash), Bytes(location), Bytes(metadata), VBool(multiStep));
  }

  /** It is what version six encodes such a call to. */
  lemma CreateProposalV2EncodedBySix(stakePool: Account, hash: seq<byte>, location: seq<byte>, metadata: seq<byte>,
                                     multiStep: bool)
    requires Short(hash) && Short(location) && Short(metadata)
    ensures var c := Call(CREATE_PROPOSAL_V2, [],
                          [VAddress(stakePool), Bytes(hash), Bytes(location), Bytes(metadata), VBool(multiStep)]);
            && IsCall(V6(), c)
            && Encode(V6(), c) == Some(CreateProposalV2PayloadV6(stakePool, hash, location, metadata, multiStep))
  {
    BytesEncode(hash);
    BytesEncode(location);
    BytesEncode(metadata);
    ProposalEncodedBySix(VAddress(stakePool), Bytes(hash), Bytes(location), Bytes(metadata), VBool(multiStep));
  }

  lemma ProposalEncodedBySix(v: Value, w: Value, x: Value, y: Value, z: Value)
    requires v.VAddress? && HasType(w, BYTES) && HasType(x, BYTES) && HasType(y, BYTES) && z.VBool?
    requires Sized(w) && Sized(x) && Sized(y)
    ensures var c := Call(CREATE_PROPOSAL_V2, [], [v, w, x, y, z]);
            && IsCall(V6(), c)
            && Encode(V6(), c) == Some(Core("diem_governance", "create_proposal_v2", [],
                                            [ToBytes(v), ToBytes(w), ToBytes(x), ToBytes(y), ToBytes(z)]))
  {
    var vs := [v, w, x, y, z];
    assert V6()[CREATE_PROPOSAL_V2].args == [TAddress, BYTES, BYTES, BYTES, TBool];
    assert EncodeArgs(vs) == [ToBytes(v), ToBytes(w), ToBytes(x), ToBytes(y), ToBytes(z)];
  }

  function FinalizeAndCageV6(authorities: seq<Account>, signers: u64): Payload {
    Core("community_wallet_init", "finalize_and_cage", [], [VectorOfAccounts(authorities), LeBytes(signers, 8)])
  }

  function InitPaymentMultisigV6(): Payload { Core("safe", "init_payment_multisig", [], []) }

  /** The other two changed builders: version seven accepts none of their payloads. */
  lemma FinalizeAndCageAcrossVersions(authorities: seq<Account>, signers: u64)
    requires |authorities| < 0x8000_0000
    ensures Decode(V7(), FinalizeAndCageV6(authorities, signers)) == None
    ensures var c := Call(FINALIZE_AND_CAGE, [], [VVec(Accounts(authorities)), VU64(signers)]);
            IsCall(V6(), c) && Encode(V6(), c) == Some(FinalizeAndCageV6(authorities, signers))
  {
    AccountsValue(authorities);
    FinalizeOf(VVec(Accounts(authorities)), signers);
  }

  lemma FinalizeOf(list: Value, signers: u64)
    requires HasType(list, ADDRESSES) && Sized(list)
    ensures var p := Core("community_wallet_init", "finalize_and_cage", [], [ToBytes(list), LeBytes(signers, 8)]);
            var c := Call(FINALIZE_AND_CAGE, [], [list, VU64(signers)]);
            Decode(V7(), p) == None && IsCall(V6(), c) && Encode(V6(), c) == Some(p)
  {
    assert V6()[FINALIZE_AND_CAGE].args == [ADDRESSES, TU64];
    TwoArguments(list, VU64(signers));
    AddressesAsU64(list);
    V7Finds(FINALIZE_AND_CAGE);
  }

  lemma InitPaymentMultisigAcrossVersions()
    ensures Decode(V7(), InitPaymentMultisigV6()) == None
    ensures var c := Call(INIT_PAYMENT_MULTISIG, [], []);
            IsCall(V6(), c) && Encode(V6(), c) == Some(InitPaymentMultisigV6())
  {
    V7Finds(INIT_PAYMENT_MULTISIG);
  }
}
