/** What the version-seven decoder does with every payload the version-six SDK can build. */
module SdkVersions {
  import opened Common
  import opened Bcs
  import opened EntryFunctions
  import opened SdkTables

  // ----- The two older tables -----

  const V7_COUNT: nat := 70
  const V6_COUNT: nat := 72

  // Rows of the current table that matter below.
  const FINALIZE_AND_CAGE: nat := 12
  const CREATE_PROPOSAL_V2: nat := 17
  const UPDATE_BID_NET_REWARD: nat := 59
  const INIT_PAYMENT_MULTISIG: nat := 60

  /** Version seven has the current functions but `pof_update_bid_net_reward`. */
  function ToCurrent(i: nat): nat { if i < UPDATE_BID_NET_REWARD then i else i + 1 }
  function FromCurrent(j: nat): nat { if j < UPDATE_BID_NET_REWARD then j else j - 1 }

  function V7(): (table: Table)
    ensures |table| == V7_COUNT
    ensures forall i :: 0 <= i < V7_COUNT ==> table[i] == CurrentRow(ToCurrent(i))
  {
    seq(V7_COUNT, i requires 0 <= i < V7_COUNT => CurrentRow(ToCurrent(i)))
  }

  /** The functions only version six has; they take the places of those added later. */
  predicate Retired(i: nat) { i in {14, 33, 34, 35, UPDATE_BID_NET_REWARD, 71} }

  predicate Changed(i: nat) { i in {FINALIZE_AND_CAGE, CREATE_PROPOSAL_V2, INIT_PAYMENT_MULTISIG} }

  function RetiredRow(i: nat): Row
    requires Retired(i)
  {
    match i
    case 14 => Row("diem_governance", "create_proposal", 0, [TAddress, BYTES, BYTES, BYTES])
    case 33 => Row("multi_action", "finalize_and_cage", 0, [ADDRESSES, TU64])
    case 34 => Row("oracle", "init_provider", 0, [])
    case 35 => Row("stake", "initialize_stake_owner", 0, [TU64, TAddress, TAddress])
    case 59 => Row("stake", "set_operator", 0, [TAddress])
    case _ => Row("tower_state", "minerstate_commit", 0, [BYTES, BYTES, TU64, TU64])
  }

  function V6Row(i: nat): Row
    requires i < V6_COUNT
  {
    if Retired(i) then RetiredRow(i)
    else if i == FINALIZE_AND_CAGE then Row("community_wallet_init", "finalize_and_cage", 0, [ADDRESSES, TU64])
    else if i == CREATE_PROPOSAL_V2 then
      Row("diem_governance", "create_proposal_v2", 0, [TAddress, BYTES, BYTES, BYTES, TBool])
    else if i == INIT_PAYMENT_MULTISIG then Row("safe", "init_payment_multisig", 0, [])
    else CurrentRow(i)
  }

  function V6(): (table: Table)
    ensures |table| == V6_COUNT
    ensures forall i :: 0 <= i < V6_COUNT ==> table[i] == V6Row(i)
  {
    seq(V6_COUNT, i requires 0 <= i < V6_COUNT => V6Row(i))
  }

  // ----- Reading an argument at another type -----

  lemma {:induction false} LengthOfU8s(vs: seq<Value>)
    requires AllHaveType(vs, TU8)
    ensures |AllToBytes(vs)| == |vs|
  {
    if vs == [] {
    } else {
      LengthOfU8s(vs[1..]);
    }
  }

  lemma {:induction false} LengthOfAddresses(vs: seq<Value>)
    requires AllHaveType(vs, TAddress)
    ensures |AllToBytes(vs)| == ACCOUNT_LENGTH * |vs|
  {
    if vs == [] {
    } else {
      LengthOfAddresses(vs[1..]);
    }
  }

  /** The 32 raw bytes of an address pass for a byte vector exactly when the first one is 31. */
  lemma AddressAsBytes(a: Account)
    ensures FromBytes(BYTES, a) == if a[0] == 31 then Some(VVec(U8s(a[1..]))) else None
  {
    if a[0] == 31 {
      var v := VVec(U8s(a[1..]));
      U8sEncode(a[1..]);
      assert WriteUleb(31) == [31];
      assert ToBytes(v) == a;
      FromBytesExact(BYTES, a, v);
    } else if FromBytes(BYTES, a).Some? {
      var v := FromBytes(BYTES, a).value;
      FromBytesExact(BYTES, a, v);
      LengthOfU8s(v.items);
      assert false;
    }
  }

  /** A byte vector passes for a boolean exactly when it is empty, and then reads as `false`. */
  lemma BytesAsBool(v: Value)
    requires HasType(v, BYTES) && Sized(v)
    ensures FromBytes(TBool, ToBytes(v)) == if v.items == [] then Some(VBool(false)) else None
  {
    LengthOfU8s(v.items);
    if v.items == [] {
      assert ToBytes(v) == [0];
    } else {
      assert |ToBytes(v)| >= 2;
      if FromBytes(TBool, ToBytes(v)).Some? {
        FromBytesExact(TBool, ToBytes(v), FromBytes(TBool, ToBytes(v)).value);
      }
    }
  }

  /** A list of addresses is never eight bytes long, so it never passes for an integer. */
  lemma AddressesAsU64(v: Value)
    requires HasType(v, ADDRESSES) && Sized(v)
    ensures FromBytes(TU64, ToBytes(v)) == None
  {
    LengthOfAddresses(v.items);
    assert |v.items| == 0 ==> |ToBytes(v)| == 1;
    assert |v.items| > 0 ==> |ToBytes(v)| > 32;
    if FromBytes(TU64, ToBytes(v)).Some? {
      FromBytesExact(TU64, ToBytes(v), FromBytes(TU64, ToBytes(v)).value);
    }
  }

  // ----- Dispatch in version seven -----

  lemma V7Finds(j: nat)
    requires j < CURRENT_COUNT && j != UPDATE_BID_NET_REWARD
    ensures FindDecoder(V7(), CurrentRow(j).moduleName, CurrentRow(j).function_) == Some(FromCurrent(j))
  {
    var i := FromCurrent(j);
    forall k | i < k < V7_COUNT
      ensures V7()[k].Key() != V7()[i].Key()
    {
      SlotOfRow(ToCurrent(k));
      SlotOfRow(ToCurrent(i));
    }
    DecoderMapKeeps(V7(), i);
  }

  lemma RetiredKeyIsGone(i: nat, j: nat)
    requires Retired(i) && j < CURRENT_COUNT
    ensures RetiredRow(i).Key() != CurrentRow(j).Key()
  {
    var key := RetiredRow(i).Key();
    if key == CurrentRow(j).Key() {
      SlotOfRow(j);
      RetiredKeyMissesItsSlot(i);
    }
  }

  lemma RetiredKeyMissesItsSlot(i: nat)
    requires Retired(i)
    ensures SlotOf(RetiredRow(i).Key()) < CURRENT_COUNT
    ensures RetiredRow(i).Key() != CurrentRow(SlotOf(RetiredRow(i).Key())).Key()
  {
    var key := RetiredRow(i).Key();
    match i
    case 14 => assert SlotOf(key) == 25 && CurrentRow(25).Key()[1] != key[1];
    case 33 => assert SlotOf(key) == 48 && CurrentRow(48).Key()[5] != key[5];
    case 34 => assert SlotOf(key) == 52 && CurrentRow(52).Key()[1] != key[1];
    case 35 => assert SlotOf(key) == 57 && CurrentRow(57).Key()[0] != key[0];
    case 59 => assert SlotOf(key) == 0 && CurrentRow(0).Key()[0] != key[0];
    case _ => assert SlotOf(key) == 47 && CurrentRow(47).Key()[0] != key[0];
  }

  lemma V7LacksRetired(i: nat)
    requires Retired(i)
    ensures FindDecoder(V7(), RetiredRow(i).moduleName, RetiredRow(i).function_) == None
  {
    forall k | 0 <= k < V7_COUNT
      ensures V7()[k].Key() != RetiredRow(i).Key()
    {
      RetiredKeyIsGone(i, ToCurrent(k));
    }
    DecoderMapKeysFromRows(V7(), RetiredRow(i).Key());
  }

  lemma {:induction false} DecoderMapKeysFromRows(table: Table, key: string)
    requires forall k :: 0 <= k < |table| ==> table[k].Key() != key
    ensures key !in DecoderMap(table)
  {
    if table == [] {
    } else {
      var init := table[..|table| - 1];
      assert forall k :: 0 <= k < |init| ==> init[k] == table[k];
      DecoderMapKeysFromRows(init, key);
    }
  }

  // ----- Main results -----

  /** An unchanged function keeps its meaning: same function, same arguments. */
  lemma UnchangedCallsSurvive(c: Call)
    requires IsCall(V6(), c) && ArgsSized(c.args) && !Retired(c.row) && !Changed(c.row)
    ensures Decode(V7(), Encode(V6(), c).value) == Some(c.(row := FromCurrent(c.row)))
  {
    V7Finds(c.row);
    DecodeExact(V7(), Encode(V6(), c).value, c.(row := FromCurrent(c.row)));
  }

  lemma RetiredCallsRejected(c: Call)
    requires IsCall(V6(), c) && ArgsSized(c.args) && Retired(c.row)
    ensures Decode(V7(), Encode(V6(), c).value) == None
  {
    V7LacksRetired(c.row);
  }

  /** `finalize_and_cage` and `init_payment_multisig` payloads are never accepted. */
  lemma ChangedCallsRejected(c: Call)
    requires IsCall(V6(), c) && ArgsSized(c.args)
    requires c.row == FINALIZE_AND_CAGE || c.row == INIT_PAYMENT_MULTISIG
    ensures Decode(V7(), Encode(V6(), c).value) == None
  {
    V7Finds(c.row);
    if c.row == FINALIZE_AND_CAGE {
      AddressesAsU64(c.args[0]);
    }
  }

  /** The version-six arguments of `create_proposal_v2`, decoded at the version-seven types. */
  lemma ProposalArgsShifted(stakePool: Account, hash: Value, location: Value, metadata: Value, multiStep: Value)
    requires HasType(hash, BYTES) && HasType(location, BYTES) && HasType(metadata, BYTES)
    requires Sized(hash) && Sized(location) && Sized(metadata)
    ensures DecodeArgs([BYTES, BYTES, BYTES, TBool],
                       EncodeArgs([VAddress(stakePool), hash, location, metadata, multiStep]))
         == if stakePool[0] == 31 && metadata.items == []
            then Some([VVec(U8s(stakePool[1..])), hash, location, VBool(false)]) else None
  {
    var tys := [BYTES, BYTES, BYTES, TBool];
    var bss := EncodeArgs([VAddress(stakePool), hash, location, metadata, multiStep]);
    AddressAsBytes(stakePool);
    FromBytesExact(BYTES, ToBytes(hash), hash);
    FromBytesExact(BYTES, ToBytes(location), location);
    BytesAsBool(metadata);
    assert bss[0] == stakePool && bss[1] == ToBytes(hash) && bss[2] == ToBytes(location) && bss[3] == ToBytes(metadata);
    FourArgs(tys, bss);
  }

  /** Four arguments decoded one by one. */
  lemma FourArgs(tys: seq<Ty>, bss: seq<seq<byte>>)
    requires |tys| == 4 <= |bss|
    ensures var a, b := FromBytes(tys[0], bss[0]), FromBytes(tys[1], bss[1]);
            var c, d := FromBytes(tys[2], bss[2]), FromBytes(tys[3], bss[3]);
            DecodeArgs(tys, bss) ==
            if a.Some? && b.Some? && c.Some? && d.Some? then Some([a.value, b.value, c.value, d.value]) else None
  {
    DecodeArgsPointwise(tys, bss);
    if forall k :: 0 <= k < 4 ==> FromBytes(tys[k], bss[k]).Some? {
      var vs := DecodeArgs(tys, bss).value;
      assert FromBytes(tys[0], bss[0]) == Some(vs[0]) && FromBytes(tys[1], bss[1]) == Some(vs[1]);
      assert FromBytes(tys[2], bss[2]) == Some(vs[2]) && FromBytes(tys[3], bss[3]) == Some(vs[3]);
      assert vs == [vs[0], vs[1], vs[2], vs[3]];
    }
  }

  lemma ProposalCallShape(c: Call)
    requires IsCall(V6(), c) && ArgsSized(c.args) && c.row == CREATE_PROPOSAL_V2
    ensures |c.args| == 5 && c.typeArgs == [] && c.args[0].VAddress? && c.args[3].VVec?
    ensures forall k :: 1 <= k <= 3 ==> HasType(c.args[k], BYTES) && Sized(c.args[k])
    ensures c.args == [VAddress(c.args[0].address), c.args[1], c.args[2], c.args[3], c.args[4]]
  {
    var tys := V6Row(CREATE_PROPOSAL_V2).args;
    assert tys == [TAddress, BYTES, BYTES, BYTES, TBool];
    assert HasType(c.args[0], tys[0]) && HasType(c.args[1], tys[1]);
    assert HasType(c.args[2], tys[2]) && HasType(c.args[3], tys[3]);
  }

  /** A `create_proposal_v2` payload is accepted exactly when the stake pool's first byte is 31 and
      the metadata hash is empty; every argument is then read one place off. */
  lemma CreateProposalV2(c: Call)
    requires IsCall(V6(), c) && ArgsSized(c.args) && c.row == CREATE_PROPOSAL_V2
    ensures |c.args| == 5 && c.args[0].VAddress? && c.args[3].VVec?
    ensures var stakePool, metadataHash := c.args[0].address, c.args[3].items;
            Decode(V7(), Encode(V6(), c).value) ==
            if stakePool[0] == 31 && metadataHash == []
            then Some(Call(CREATE_PROPOSAL_V2, [], [VVec(U8s(stakePool[1..])), c.args[1], c.args[2], VBool(false)]))
            else None
  {
    ProposalCallShape(c);
    ProposalDispatch(Encode(V6(), c).value);
    ProposalArgsShifted(c.args[0].address, c.args[1], c.args[2], c.args[3], c.args[4]);
  }

  lemma ProposalDispatch(p: Payload)
    requires p.EntryFunction? && p.typeArgs == []
    requires p.moduleName == CurrentRow(CREATE_PROPOSAL_V2).moduleName
    requires p.function_ == CurrentRow(CREATE_PROPOSAL_V2).function_
    ensures Decode(V7(), p) ==
            match DecodeArgs([BYTES, BYTES, BYTES, TBool], p.args)
            case None => None
            case Some(vs) => Some(Call(CREATE_PROPOSAL_V2, [], vs))
  {
    V7Finds(CREATE_PROPOSAL_V2);
    assert V7()[CREATE_PROPOSAL_V2] == CurrentRow(CREATE_PROPOSAL_V2);
  }

  /** Which version-six calls the version-seven decoder accepts: those of unchanged functions, and
      the `create_proposal_v2` calls that happen to parse at the new types. */
  lemma AcceptedByV7(c: Call)
    requires IsCall(V6(), c) && ArgsSized(c.args)
    ensures Decode(V7(), Encode(V6(), c).value).Some? <==>
            || (!Retired(c.row) && !Changed(c.row))
            || (c.row == CREATE_PROPOSAL_V2 && |c.args| == 5 && c.args[0].VAddress? && c.args[3].VVec?
                && c.args[0].address[0] == 31 && c.args[3].items == [])
  {
    if Retired(c.row) {
      RetiredCallsRejected(c);
    } else if c.row == CREATE_PROPOSAL_V2 {
      CreateProposalV2(c);
    } else if Changed(c.row) {
      ChangedCallsRejected(c);
    } else {
      UnchangedCallsSurvive(c);
    }
  }
}
