/** The entry functions of the current framework SDK, in the order of its decoder map. */
module SdkTables {
  import opened Common
  import opened EntryFunctions

  const BYTES: Ty := TVec(TU8)
  const ADDRESSES: Ty := TVec(TAddress)

  function Rows0(i: nat): Row
    requires 0 <= i < 6
  {
    match i
    case 0 => Row("account", "offer_rotation_capability", 0, [BYTES, TU8, BYTES, TAddress])
    case 1 => Row("account", "offer_signer_capability", 0, [BYTES, TU8, BYTES, TAddress])
    case 2 => Row("account", "revoke_any_rotation_capability", 0, [])
    case 3 => Row("account", "revoke_any_signer_capability", 0, [])
    case 4 => Row("account", "revoke_rotation_capability", 0, [TAddress])
    case _ => Row("account", "revoke_signer_capability", 0, [TAddress])
  }

  function Rows1(i: nat): Row
    requires 6 <= i < 12
  {
    match i
    case 6 => Row("account", "rotate_authentication_key", 0, [TU8, BYTES, TU8, BYTES, BYTES, BYTES])
    case 7 => Row("account", "rotate_authentication_key_with_rotation_capability", 0, [TAddress, TU8, BYTES, BYTES])
    case 8 => Row("burn", "set_send_community", 0, [TBool])
    case 9 => Row("code", "publish_package_txn", 0, [BYTES, TVec(BYTES)])
    case 10 => Row("coin", "transfer", 1, [TAddress, TU64])
    case _ =>
      Row("community_wallet_init", "change_signer_community_multisig", 0, [TAddress, TAddress, TBool, TU64, TU64])
  }

  function Rows2(i: nat): Row
    requires 12 <= i < 18
  {
    match i
    case 12 => Row("community_wallet_init", "finalize_and_cage", 0, [TU64])
    case 13 => Row("community_wallet_init", "init_community", 0, [ADDRESSES, TU64])
    case 14 => Row("community_wallet_init", "propose_offer", 0, [ADDRESSES, TU64])
    case 15 => Row("diem_governance", "add_approved_script_hash_script", 0, [TU64])
    case 16 => Row("diem_governance", "assert_can_resolve", 0, [TU64])
    case _ => Row("diem_governance", "create_proposal_v2", 0, [BYTES, BYTES, BYTES, TBool])
  }

  function Rows3(i: nat): Row
    requires 18 <= i < 24
  {
    match i
    case 18 => Row("diem_governance", "ol_create_proposal_v2", 0, [BYTES, BYTES, BYTES, TBool])
    case 19 => Row("diem_governance", "ol_vote", 0, [TU64, TBool])
    case 20 => Row("diem_governance", "smoke_trigger_epoch", 0, [])
    case 21 => Row("diem_governance", "trigger_epoch", 0, [])
    case 22 => Row("diem_governance", "vote", 0, [TU64, TBool])
    case _ => Row("donor_voice_txs", "propose_liquidate_tx", 0, [TAddress])
  }

  function Rows4(i: nat): Row
    requires 24 <= i < 30
  {
    match i
    case 24 => Row("donor_voice_txs", "propose_payment_tx", 0, [TAddress, TAddress, TU64, BYTES])
    case 25 => Row("donor_voice_txs", "propose_veto_tx", 0, [TAddress, TU64])
    case 26 => Row("donor_voice_txs", "vote_liquidation_tx", 0, [TAddress])
    case 27 => Row("donor_voice_txs", "vote_veto_tx", 0, [TAddress, TU64])
    case 28 => Row("epoch_boundary", "smoke_trigger_epoch", 0, [])
    case _ => Row("jail", "unjail_by_voucher", 0, [TAddress])
  }

  function Rows5(i: nat): Row
    requires 30 <= i < 36
  {
    match i
    case 30 => Row("libra_coin", "claim_mint_capability", 0, [])
    case 31 => Row("libra_coin", "delegate_mint_capability", 0, [TAddress])
    case 32 => Row("libra_coin", "mint_to_impl", 0, [TAddress, TU64])
    case 33 => Row("multi_action", "claim_offer", 0, [TAddress])
    case 34 => Row("multi_action", "init_gov_deprecated", 0, [])
    case _ => Row("multi_action_migration", "migrate_offer", 0, [TAddress])
  }

  function Rows6(i: nat): Row
    requires 36 <= i < 42
  {
    match i
    case 36 => Row("multisig_account", "add_owner", 0, [TAddress])
    case 37 => Row("multisig_account", "add_owners", 0, [ADDRESSES])
    case 38 => Row("multisig_account", "approve_transaction", 0, [TAddress, TU64])
    case 39 => Row("multisig_account", "create", 0, [TU64, TVec(BYTES), TVec(BYTES)])
    case 40 => Row("multisig_account", "create_transaction", 0, [TAddress, BYTES])
    case _ => Row("multisig_account", "create_transaction_with_hash", 0, [TAddress, BYTES])
  }

  function Rows7(i: nat): Row
    requires 42 <= i < 48
  {
    match i
    case 42 =>
      Row("multisig_account", "create_with_existing_account", 0,
          [TAddress, ADDRESSES, TU64, TU8, BYTES, BYTES, TVec(BYTES), TVec(BYTES)])
    case 43 => Row("multisig_account", "create_with_owners", 0, [ADDRESSES, TU64, TVec(BYTES), TVec(BYTES)])
    case 44 => Row("multisig_account", "execute_rejected_transaction", 0, [TAddress])
    case 45 => Row("multisig_account", "migrate_with_owners", 0, [ADDRESSES, TU64, TVec(BYTES), TVec(BYTES)])
    case 46 => Row("multisig_account", "reject_transaction", 0, [TAddress, TU64])
    case _ => Row("multisig_account", "remove_owner", 0, [TAddress])
  }

  function Rows8(i: nat): Row
    requires 48 <= i < 54
  {
    match i
    case 48 => Row("multisig_account", "remove_owners", 0, [ADDRESSES])
    case 49 => Row("multisig_account", "update_metadata", 0, [TVec(BYTES), TVec(BYTES)])
    case 50 => Row("multisig_account", "update_signatures_required", 0, [TU64])
    case 51 => Row("multisig_account", "vote_transanction", 0, [TAddress, TU64, TBool])
    case 52 => Row("object", "transfer_call", 0, [TAddress, TAddress])
    case _ => Row("ol_account", "create_account", 0, [TAddress])
  }

  function Rows9(i: nat): Row
    requires 54 <= i < 60
  {
    match i
    case 54 => Row("ol_account", "set_allow_direct_coin_transfers", 0, [TBool])
    case 55 => Row("ol_account", "transfer", 0, [TAddress, TU64])
    case 56 => Row("proof_of_fee", "init_bidding", 0, [])
    case 57 => Row("proof_of_fee", "pof_retract_bid", 0, [])
    case 58 => Row("proof_of_fee", "pof_update_bid", 0, [TU64, TU64])
    case _ => Row("proof_of_fee", "pof_update_bid_net_reward", 0, [TU64, TU64])
  }

  function Rows10(i: nat): Row
    requires 60 <= i < 66
  {
    match i
    case 60 => Row("safe", "init_payment_multisig", 0, [ADDRESSES])
    case 61 => Row("slow_wallet", "smoke_test_vm_unlock", 0, [TAddress, TU64, TU64])
    case 62 => Row("slow_wallet", "user_set_slow", 0, [])
    case 63 => Row("stake", "initialize_validator", 0, [BYTES, BYTES, BYTES, BYTES])
    case 64 => Row("stake", "rotate_consensus_key", 0, [TAddress, BYTES, BYTES])
    case _ => Row("stake", "update_network_and_fullnode_addresses", 0, [TAddress, BYTES, BYTES])
  }

  function Rows11(i: nat): Row
    requires 66 <= i < 71
  {
    match i
    case 66 => Row("validator_universe", "register_validator", 0, [BYTES, BYTES, BYTES, BYTES])
    case 67 => Row("version", "set_version", 0, [TU64])
    case 68 => Row("vouch", "insist_vouch_for", 0, [TAddress])
    case 69 => Row("vouch", "revoke", 0, [TAddress])
    case _ => Row("vouch", "vouch_for", 0, [TAddress])
  }

  function CurrentRow(i: nat): Row
    requires i < 71
  {
    if i < 6 then Rows0(i)
    else if i < 12 then Rows1(i)
    else if i < 18 then Rows2(i)
    else if i < 24 then Rows3(i)
    else if i < 30 then Rows4(i)
    else if i < 36 then Rows5(i)
    else if i < 42 then Rows6(i)
    else if i < 48 then Rows7(i)
    else if i < 54 then Rows8(i)
    else if i < 60 then Rows9(i)
    else if i < 66 then Rows10(i)
    else Rows11(i)
  }

  /** The row a key can belong to at all, from its length and at most two of its characters. Any two
      keys of the table differ in what it looks at, which takes 71 evaluations to check instead of a
      comparison of every pair. */
  function SlotOf(k: string): nat {
    match |k|
    case 12 => 69
    case 13 => 10
    case 15 => 70
    case 19 => if k[0] == 'o' then 55 else 67
    case 20 => if k[0] == 'd' then 22 else 52
    case 22 => if k[0] == 'j' then 29 else 68
    case 23 => if k[0] == 'b' then 8 else if k[0] == 'd' then 19 else if k[0] == 'l' then 32 else 39
    case 24 => if k[0] == 'c' then 9 else 33
    case 25 => if k[0] == 'o' then 53 else if k[0] == 'p' then 56 else 62
    case 26 =>
      if k[7] == 'g' then 36 else if k[7] == 'i' then 60 else if k[7] == 'n' then 63 else 64
    case 27 => if k[0] == 'm' then 37 else 58
    case 28 => if k[0] == 'd' then 27 else 57
    case 29 => if k[0] == 'd' then 21 else 47
    case 30 => 48
    case 31 => if k[0] == 'a' then 1 else 25
    case 32 =>
      if k[7] == '_' then 5 else if k[7] == 'o' then 30 else if k[7] == 'c' then 34
      else if k[7] == 'g' then 49 else 61
    case 33 => if k[8] == 'o' then 0 else 6
    case 34 =>
      if k[16] == 'o' then 4 else if k[16] == 'a' then 16 else if k[16] == 'c' then 17
      else if k[16] == 'p' then 24 else if k[16] == 'm' then 28 else 51
    case 35 =>
      if k[17] == 'i' then 14 else if k[17] == 'm' then 20 else if k[17] == 'o' then 26
      else if k[17] == 't' then 31 else if k[17] == 'c' then (if k[24] == 't' then 40 else 43) else 46
    case 36 =>
      if k[18] == '_' then 3 else if k[18] == 'n' then 13 else if k[18] == 'o' then 23
      else if k[18] == 't' then 35 else if k[18] == 'p' then 38 else 45
    case 37 => if k[0] == 'd' then 18 else 66
    case 38 => if k[0] == 'a' then 2 else 59
    case 39 => 12
    case 42 => 54
    case 43 => if k[0] == 'm' then 50 else 65
    case 45 => if k[24] == 't' then 41 else if k[24] == 'w' then 42 else 44
    case 47 => 15
    case 54 => 11
    case 58 => 7
    case _ => 0
  }

  lemma SlotOfRows0(i: nat)
    requires 0 <= i < 6
    ensures SlotOf(Rows0(i).Key()) == i
  {
  }

  lemma SlotOfRows1(i: nat)
    requires 6 <= i < 12
    ensures SlotOf(Rows1(i).Key()) == i
  {
  }

  lemma SlotOfRows2(i: nat)
    requires 12 <= i < 18
    ensures SlotOf(Rows2(i).Key()) == i
  {
  }

  lemma SlotOfRows3(i: nat)
    requires 18 <= i < 24
    ensures SlotOf(Rows3(i).Key()) == i
  {
  }

  lemma SlotOfRows4(i: nat)
    requires 24 <= i < 30
    ensures SlotOf(Rows4(i).Key()) == i
  {
    match i
    case 24 => assert |Rows4(24).Key()| == 34;
    case 25 => assert |Rows4(25).Key()| == 31;
    case 26 => assert |Rows4(26).Key()| == 35;
    case 27 => assert |Rows4(27).Key()| == 28;
    case 28 => assert |Rows4(28).Key()| == 34;
    case _ => assert |Rows4(29).Key()| == 22;
  }

  lemma SlotOfRows5(i: nat)
    requires 30 <= i < 36
    ensures SlotOf(Rows5(i).Key()) == i
  {
  }

  lemma SlotOfRows6(i: nat)
    requires 36 <= i < 42
    ensures SlotOf(Rows6(i).Key()) == i
  {
    match i
    case 36 =>
    case 37 =>
    case 38 =>
    case 39 =>
    case 40 =>
    case _ =>
  }

  lemma SlotOfRows7(i: nat)
    requires 42 <= i < 48
    ensures SlotOf(Rows7(i).Key()) == i
  {
    if i < 45 { SlotOfRows7Front(i); } else { SlotOfRows7Back(i); }
  }

  lemma SlotOfRows7Front(i: nat)
    requires 42 <= i < 45
    ensures SlotOf(Rows7(i).Key()) == i
  {
    match i
    case 42 => assert |Rows7(42).Key()| == 45;
    case 43 => assert |Rows7(43).Key()| == 35;
    case _ => assert |Rows7(44).Key()| == 45;
  }

  lemma SlotOfRows7Back(i: nat)
    requires 45 <= i < 48
    ensures SlotOf(Rows7(i).Key()) == i
  {
    match i
    case 45 => assert |Rows7(45).Key()| == 36;
    case 46 => assert |Rows7(46).Key()| == 35;
    case _ => assert |Rows7(47).Key()| == 29;
  }

  lemma SlotOfRows8(i: nat)
    requires 48 <= i < 54
    ensures SlotOf(Rows8(i).Key()) == i
  {
  }

  lemma SlotOfRows9(i: nat)
    requires 54 <= i < 60
    ensures SlotOf(Rows9(i).Key()) == i
  {
  }

  lemma SlotOfRows10(i: nat)
    requires 60 <= i < 66
    ensures SlotOf(Rows10(i).Key()) == i
  {
  }

  lemma SlotOfRows11(i: nat)
    requires 66 <= i < 71
    ensures SlotOf(Rows11(i).Key()) == i
  {
  }

  const CURRENT_COUNT: nat := 71

  function Current(): (table: Table)
    ensures |table| == CURRENT_COUNT
    ensures forall i :: 0 <= i < CURRENT_COUNT ==> table[i] == CurrentRow(i)
  {
    seq(CURRENT_COUNT, i requires 0 <= i < CURRENT_COUNT => CurrentRow(i))
  }

  /** A key determines its row: the slot computed from its length and a few characters. */
  lemma SlotOfRow(i: nat)
    requires i < CURRENT_COUNT
    ensures SlotOf(CurrentRow(i).Key()) == i
  {
    if i < 6 { SlotOfRows0(i); } else if i < 12 { SlotOfRows1(i); }
    else if i < 18 { SlotOfRows2(i); } else if i < 24 { SlotOfRows3(i); }
    else if i < 30 { SlotOfRows4(i); } else if i < 36 { SlotOfRows5(i); }
    else if i < 42 { SlotOfRows6(i); } else if i < 48 { SlotOfRows7(i); }
    else if i < 54 { SlotOfRows8(i); } else if i < 60 { SlotOfRows9(i); }
    else if i < 66 { SlotOfRows10(i); } else { SlotOfRows11(i); }
  }

  lemma CurrentKeysDistinct()
    ensures DistinctKeys(Current())
  {
    forall i, j | 0 <= i < j < CURRENT_COUNT
      ensures Current()[i].Key() != Current()[j].Key()
    {
      SlotOfRow(i);
      SlotOfRow(j);
    }
  }

  /** Every call of the current SDK, whatever its arguments, is decoded back from its payload. */
  lemma CurrentRoundTrip(c: Call)
    requires IsCall(Current(), c) && Encode(Current(), c).Some?
    ensures Decode(Current(), Encode(Current(), c).value) == Some(c)
  {
    CurrentKeysDistinct();
    RoundTrip(Current(), c);
  }

  const MIGRATE_OFFER: nat := 35

  /** The joined key does not determine the module: from any address, a call of `migration_migrate_offer`
      in `multi_action` is decoded as `migrate_offer` in `multi_action_migration`, and encoding that gives
      another payload. */
  lemma AmbiguousPayload(a: Account, who: Account)
    ensures var p := EntryFunction(a, "multi_action", "migration_migrate_offer", [], [who]);
            var c := Call(MIGRATE_OFFER, [], [VAddress(who)]);
            && Decode(Current(), p) == Some(c)
            && IsCall(Current(), c)
            && Encode(Current(), c).Some? && Encode(Current(), c) != Some(p)
  {
    var p := EntryFunction(a, "multi_action", "migration_migrate_offer", [], [who]);
    var c := Call(MIGRATE_OFFER, [], [VAddress(who)]);
    var row := Current()[MIGRATE_OFFER];
    assert row.moduleName == "multi_action_migration" && row.args == [TAddress] && row.typeArgs == 0;
    JoinedKeyAmbiguous();
    CurrentKeysDistinct();
    DecoderMapKeeps(Current(), MIGRATE_OFFER);
    assert EncodeArgs(c.args) == [who];
    DecodeExact(Current(), p, c);
    assert |row.moduleName| != |p.moduleName|;
  }
}
