/** The audit that compares recovered accounts with the genesis state, with the database as maps,
    and the check of the genesis validator set. */
module GenesisAudit {
  import opened Common
  import opened Hex
  import opened LegacyAddress

  datatype Role = System | Validator | Operator | EndUser | Drop

  datatype Record = Record(account: Option<Account>, role: Role, balance: Option<u64>, slowUnlocked: Option<u64>)

  /** The coin stores and slow wallets in the genesis state. */
  datatype Chain = Chain(coins: map<Account, u64>, slow: map<Account, u64>)

  datatype Kind = UnexpectedBalance | UnexpectedUnlocked | UnlockedAboveBalance
  datatype CompareError = CompareError(index: nat, account: Account, expected: u64, migrated: u64, kind: Kind)

  datatype Outcome = Report(errors: seq<CompareError>) | Panic

  lemma WrapAdd(x: int, y: int)
    ensures Wrap(Wrap(x) + y) == Wrap(x + y)
  {
  }

  // ----- System addresses -----

  predicate ZeroRun(text: seq<byte>, k: nat) {
    k + 63 <= |text| && text[k..k + 63] == Zeros(63)
  }

  /** The printed address contains a run of 63 zeros. */
  predicate IsSystem(a: Account) {
    exists k :: 0 <= k <= 1 && ZeroRun(HexEncode(a), k)
  }

  predicate AllZero(bs: seq<byte>) {
    forall i :: 0 <= i < |bs| ==> bs[i] == 0
  }

  lemma {:induction false} HexEncodeAt(bs: seq<byte>, i: nat)
    requires i < |bs|
    ensures HexEncode(bs)[2 * i] == HexDigit(bs[i] / 16)
    ensures HexEncode(bs)[2 * i + 1] == HexDigit(bs[i] % 16)
    decreases |bs|
  {
    if i < |bs| - 1 {
      HexEncodeAt(bs[..|bs| - 1], i);
    }
  }

  /** Besides the addresses below 16 this also catches those that are zero after the first digit. */
  lemma IsSystemExact(a: Account)
    ensures IsSystem(a) <==>
            || (AllZero(a[..31]) && a[31] < 16)
            || (AllZero(a[1..]) && a[0] % 16 == 0)
  {
    var text := HexEncode(a);
    forall i | 0 <= i < 32
      ensures text[2 * i] == ZERO_CHAR <==> a[i] < 16
      ensures text[2 * i + 1] == ZERO_CHAR <==> a[i] % 16 == 0
    {
      HexEncodeAt(a, i);
    }
    if IsSystem(a) {
      var k :| 0 <= k <= 1 && ZeroRun(text, k);
      forall j | k <= j < k + 63
        ensures text[j] == ZERO_CHAR
      {
        assert text[k..k + 63][j - k] == ZERO_CHAR;
      }
      forall i | 0 <= i < 32
        ensures k <= 2 * i && 2 * i + 1 < k + 63 ==> a[i] == 0
      {
      }
    }
    if AllZero(a[..31]) && a[31] < 16 {
      forall j | 0 <= j < 63
        ensures text[j] == ZERO_CHAR
      {
        assert j == 2 * (j / 2) || j == 2 * (j / 2) + 1;
        assert j < 62 ==> a[..31][j / 2] == 0;
      }
      assert text[0..0 + 63] == Zeros(63);
      assert ZeroRun(text, 0);
    }
    if AllZero(a[1..]) && a[0] % 16 == 0 {
      forall j | 1 <= j < 64
        ensures text[j] == ZERO_CHAR
      {
        assert j == 2 * (j / 2) || j == 2 * (j / 2) + 1;
        assert j >= 2 ==> a[1..][j / 2 - 1] == 0;
      }
      assert text[1..1 + 63] == Zeros(63);
      assert ZeroRun(text, 1);
    }
  }

  /** `retain` over the non-system records; an absent account fails the `unwrap`. */
  function Strip(records: seq<Record>): Option<seq<Record>> {
    if records == [] then Some([])
    else if records[0].account.None? then None
    else
      match Strip(records[1..])
      case None => None
      case Some(others) => Some(if IsSystem(records[0].account.value) then others else [records[0]] + others)
  }

  function Joined(x: Option<seq<Record>>, y: Option<seq<Record>>): Option<seq<Record>> {
    if x.Some? && y.Some? then Some(x.value + y.value) else None
  }

  /** Stripping works record by record and keeps the order. */
  lemma {:induction false} StripConcat(a: seq<Record>, b: seq<Record>)
    ensures Strip(a + b) == Joined(Strip(a), Strip(b))
  {
    if a == [] {
      assert a + b == b;
      assert Strip(b).Some? ==> [] + Strip(b).value == Strip(b).value;
    } else {
      StripConcat(a[1..], b);
      assert (a + b)[0] == a[0] && (a + b)[1..] == a[1..] + b;
      if Strip(a[1..]).Some? && Strip(b).Some? {
        Assoc([a[0]], Strip(a[1..]).value, Strip(b).value);
      }
    }
  }

  /** It panics exactly when some account is absent, and otherwise keeps precisely the records, as
      often as they occur, that are not of system addresses. */
  lemma {:induction false} StripExact(records: seq<Record>)
    ensures Strip(records).Some? <==> forall r :: r in records ==> r.account.Some?
    ensures Strip(records).Some? ==>
              forall r :: r in Strip(records).value <==> r in records && !IsSystem(r.account.value)
    ensures Strip(records).Some? ==>
              forall r :: r in Strip(records).value ==> multiset(Strip(records).value)[r] == multiset(records)[r]
  {
    if records == [] {
    } else {
      StripExact(records[1..]);
      assert records == [records[0]] + records[1..];
    }
  }

  lemma StrippedHaveAccounts(records: seq<Record>)
    requires Strip(records).Some?
    ensures forall i :: 0 <= i < |Strip(records).value| ==> Strip(records).value[i].account.Some?
  {
    StripExact(records);
  }

  // ----- One record -----

  /** Looked at by the audit: not dropped, and with a coin store in genesis. */
  predicate Audited(record: Record, db: Chain) {
    record.account.Some? && record.role != Drop && record.account.value in db.coins
  }

  /** A resource the audit insists on is missing. */
  predicate Fatal(record: Record, db: Chain) {
    Audited(record, db) && (record.balance.None? || (record.slowUnlocked.Some? && record.account.value !in db.slow))
  }

  function Coins(record: Record, db: Chain): int {
    if Audited(record, db) then db.coins[record.account.value] else 0
  }

  function ErrorsOf(i: nat, record: Record, db: Chain): seq<CompareError>
    requires !Fatal(record, db)
  {
    if !Audited(record, db) then []
    else
      var a := record.account.value;
      var coin := db.coins[a];
      (if coin != record.balance.value then [CompareError(i, a, record.balance.value, coin, UnexpectedBalance)] else [])
      + (if record.slowUnlocked.None? then []
         else
           var unlocked := db.slow[a];
           (if unlocked != record.slowUnlocked.value
            then [CompareError(i, a, record.slowUnlocked.value, unlocked, UnexpectedUnlocked)] else [])
           + (if unlocked > coin then [CompareError(i, a, unlocked, coin, UnlockedAboveBalance)] else []))
  }

  /** The migrated account is what the recovery file says it should be. */
  predicate Migrated(record: Record, db: Chain)
    requires !Fatal(record, db)
  {
    Audited(record, db) ==>
      var a := record.account.value;
      && db.coins[a] == record.balance.value
      && (record.slowUnlocked.Some? ==> db.slow[a] == record.slowUnlocked.value && db.slow[a] <= db.coins[a])
  }

  // ----- The whole list -----

  predicate NoneFatal(records: seq<Record>, db: Chain) {
    forall r :: r in records ==> !Fatal(r, db)
  }

  function AllErrors(records: seq<Record>, db: Chain): seq<CompareError>
    requires NoneFatal(records, db)
  {
    if records == [] then []
    else
      var n := |records| - 1;
      AllErrors(records[..n], db) + ErrorsOf(n, records[n], db)
  }

  function TotalCoins(records: seq<Record>, db: Chain): int {
    if records == [] then 0
    else TotalCoins(records[..|records| - 1], db) + Coins(records[|records| - 1], db)
  }

  /** What the recovery file says the audited accounts hold. */
  function TotalRecovered(records: seq<Record>, db: Chain): int
    requires NoneFatal(records, db)
  {
    if records == [] then 0
    else
      var last := records[|records| - 1];
      assert last in records;
      TotalRecovered(records[..|records| - 1], db) + if Audited(last, db) then last.balance.value else 0
  }

  /** The body of the audit for one record: `None` is a panic. */
  method AuditOne(i: nat, record: Record, db: Chain, errList: seq<CompareError>, userSupply: u64, ghost total: int)
    returns (r: Option<(seq<CompareError>, u64)>)
    requires record.account.Some? && userSupply == Wrap(total)
    ensures r.None? <==> Fatal(record, db)
    ensures r.Some? ==> r.value.0 == errList + ErrorsOf(i, record, db)
    ensures r.Some? ==> r.value.1 == Wrap(total + Coins(record, db))
  {
    var errors, supply := errList, userSupply;
    var a := record.account.value;
    if record.role == Drop || a !in db.coins {
      return Some((errors, supply));
    }
    var coin := db.coins[a];
    if record.balance.None? { return None; }
    if coin != record.balance.value {
      errors := errors + [CompareError(i, a, record.balance.value, coin, UnexpectedBalance)];
    }
    supply := Wrap(supply as int + coin as int);
    WrapAdd(total, coin);
    if record.slowUnlocked.Some? {
      if a !in db.slow { return None; }
      var unlocked := db.slow[a];
      if unlocked != record.slowUnlocked.value {
        errors := errors + [CompareError(i, a, record.slowUnlocked.value, unlocked, UnexpectedUnlocked)];
      }
      if unlocked > coin {
        errors := errors + [CompareError(i, a, unlocked, coin, UnlockedAboveBalance)];
      }
    }
    r := Some((errors, supply));
  }

  /** The running list and supply after the given records. */
  ghost predicate Progress(done: seq<Record>, db: Chain, errList: seq<CompareError>, userSupply: u64) {
    && NoneFatal(done, db)
    && errList == AllErrors(done, db)
    && userSupply == Wrap(TotalCoins(done, db))
  }

  /** The record after those already audited. */
  method AuditNext(list: seq<Record>, i: nat, db: Chain, errList: seq<CompareError>, userSupply: u64)
    returns (r: Option<(seq<CompareError>, u64)>)
    requires i < |list| && list[i].account.Some? && Progress(list[..i], db, errList, userSupply)
    ensures r.None? <==> Fatal(list[i], db)
    ensures r.Some? ==> Progress(list[..i + 1], db, r.value.0, r.value.1)
  {
    r := AuditOne(i, list[i], db, errList, userSupply, TotalCoins(list[..i], db));
    if r.Some? { TotalsStep(list, i, db); }
  }

  /** All records, one after the other. */
  method AuditList(list: seq<Record>, db: Chain) returns (r: Outcome, userSupply: u64)
    requires forall i :: 0 <= i < |list| ==> list[i].account.Some?
    ensures r.Panic? <==> !NoneFatal(list, db)
    ensures r.Report? ==> Progress(list, db, r.errors, userSupply)
  {
    userSupply := 0;
    var errList: seq<CompareError> := [];
    for i := 0 to |list|
      invariant Progress(list[..i], db, errList, userSupply)
    {
      var next := AuditNext(list, i, db, errList, userSupply);
      if next.None? {
        assert list[i] in list;
        return Panic, userSupply;
      }
      errList, userSupply := next.value.0, next.value.1;
    }
    assert list[..|list|] == list;
    r := Report(errList);
  }

  /** The audit: push errors and add up the supply record by record. The running supply wraps at
      64 bits, as in the release build. */
  method Audit(recovery: seq<Record>, db: Chain) returns (r: Outcome, userSupply: u64)
    ensures r.Panic? <==> Strip(recovery).None? || !NoneFatal(Strip(recovery).value, db)
    ensures r.Report? ==> r.errors == AllErrors(Strip(recovery).value, db)
    ensures r.Report? ==> userSupply == Wrap(TotalCoins(Strip(recovery).value, db))
  {
    var stripped := Strip(recovery);
    if stripped.None? { return Panic, 0; }
    StrippedHaveAccounts(recovery);
    r, userSupply := AuditList(stripped.value, db);
  }

  lemma TotalsStep(list: seq<Record>, i: nat, db: Chain)
    requires i < |list| && NoneFatal(list[..i], db) && !Fatal(list[i], db)
    ensures NoneFatal(list[..i + 1], db)
    ensures AllErrors(list[..i + 1], db) == AllErrors(list[..i], db) + ErrorsOf(i, list[i], db)
    ensures TotalCoins(list[..i + 1], db) == TotalCoins(list[..i], db) + Coins(list[i], db)
  {
    var front := list[..i + 1];
    assert front[..i] == list[..i] && front == list[..i] + [list[i]];
  }

  lemma {:induction false} NoErrorsIffMigrated(records: seq<Record>, db: Chain)
    requires NoneFatal(records, db)
    ensures AllErrors(records, db) == [] <==> forall r :: r in records ==> Migrated(r, db)
  {
    if records == [] {
    } else {
      var n := |records| - 1;
      assert records == records[..n] + [records[n]];
      assert records[n] in records;
      NoErrorsIffMigrated(records[..n], db);
      assert Migrated(records[n], db) <==> ErrorsOf(n, records[n], db) == [];
    }
  }

  lemma {:induction false} MigratedTotals(records: seq<Record>, db: Chain)
    requires NoneFatal(records, db) && forall r :: r in records ==> Migrated(r, db)
    ensures TotalCoins(records, db) == TotalRecovered(records, db) >= 0
  {
    if records == [] {
    } else {
      var last := records[|records| - 1];
      assert last in records && Migrated(last, db);
      MigratedTotals(records[..|records| - 1], db);
    }
  }

  // ----- What the report says -----

  /** The error is about the record at its index, and true of it. */
  predicate Justified(records: seq<Record>, db: Chain, e: CompareError) {
    && e.index < |records|
    && records[e.index].account == Some(e.account) && records[e.index].role != Drop && e.account in db.coins
    && match e.kind
       case UnexpectedBalance =>
         && records[e.index].balance == Some(e.expected) && db.coins[e.account] == e.migrated
         && e.expected != e.migrated
       case UnexpectedUnlocked =>
         && records[e.index].slowUnlocked == Some(e.expected)
         && e.account in db.slow && db.slow[e.account] == e.migrated
         && e.expected != e.migrated
       case UnlockedAboveBalance =>
         && records[e.index].slowUnlocked.Some?
         && e.account in db.slow && db.slow[e.account] == e.expected && db.coins[e.account] == e.migrated
         && e.expected > e.migrated
  }

  lemma ErrorsOfExact(records: seq<Record>, db: Chain, e: CompareError)
    requires records != [] && !Fatal(records[|records| - 1], db)
    ensures var n := |records| - 1;
            e in ErrorsOf(n, records[n], db) <==> e.index == n && Justified(records, db, e)
  {
  }

  /** An error is reported if and only if it is justified. */
  lemma {:induction false} ReportExact(records: seq<Record>, db: Chain, e: CompareError)
    requires NoneFatal(records, db)
    ensures e in AllErrors(records, db) <==> Justified(records, db, e)
  {
    if records == [] {
    } else {
      var n := |records| - 1;
      assert records[n] in records;
      ReportExact(records[..n], db, e);
      ErrorsOfExact(records, db, e);
      assert e.index < n ==> (Justified(records[..n], db, e) <==> Justified(records, db, e));
    }
  }

  /** Errors come by index, and for one record in the order of the checks. */
  function Rank(k: Kind): nat {
    match k case UnexpectedBalance => 0 case UnexpectedUnlocked => 1 case UnlockedAboveBalance => 2
  }

  predicate Precedes(e: CompareError, f: CompareError) {
    e.index < f.index || (e.index == f.index && Rank(e.kind) < Rank(f.kind))
  }

  predicate Ordered(es: seq<CompareError>) {
    forall i, j :: 0 <= i < j < |es| ==> Precedes(es[i], es[j])
  }

  /** So the report is determined: no error occurs twice, and their order is fixed. */
  lemma {:induction false} ReportOrdered(records: seq<Record>, db: Chain)
    requires NoneFatal(records, db)
    ensures Ordered(AllErrors(records, db))
  {
    if records == [] {
    } else {
      var n := |records| - 1;
      assert records[n] in records;
      ReportOrdered(records[..n], db);
      IndicesBelow(records[..n], db);
      OwnErrorsOrdered(n, records[n], db);
      OrderedAppend(AllErrors(records[..n], db), ErrorsOf(n, records[n], db), n);
    }
  }

  lemma IndicesBelow(records: seq<Record>, db: Chain)
    requires NoneFatal(records, db)
    ensures forall i :: 0 <= i < |AllErrors(records, db)| ==> AllErrors(records, db)[i].index < |records|
  {
    var errors := AllErrors(records, db);
    forall i | 0 <= i < |errors|
      ensures errors[i].index < |records|
    {
      ReportExact(records, db, errors[i]);
    }
  }

  lemma OwnErrorsOrdered(n: nat, record: Record, db: Chain)
    requires !Fatal(record, db)
    ensures Ordered(ErrorsOf(n, record, db))
    ensures forall i :: 0 <= i < |ErrorsOf(n, record, db)| ==> ErrorsOf(n, record, db)[i].index == n
  {
  }

  lemma OrderedAppend(before: seq<CompareError>, here: seq<CompareError>, n: nat)
    requires Ordered(before) && Ordered(here)
    requires forall i :: 0 <= i < |before| ==> before[i].index < n
    requires forall i :: 0 <= i < |here| ==> here[i].index == n
    ensures Ordered(before + here)
  {
  }

  /** A record the audit compares: not of a system address, not dropped, and with a coin store. */
  predicate Compared(r: Record, db: Chain) {
    r.account.Some? && !IsSystem(r.account.value) && r.role != Drop && r.account.value in db.coins
  }

  /** The audit panics exactly when a record has no account, or a compared record has no balance or
      lacks the slow wallet that the recovery file says it has. */
  lemma AuditPanics(recovery: seq<Record>, db: Chain)
    ensures Strip(recovery).None? || !NoneFatal(Strip(recovery).value, db) <==>
            exists r :: r in recovery &&
                        (r.account.None? ||
                         (Compared(r, db) &&
                          (r.balance.None? || (r.slowUnlocked.Some? && r.account.value !in db.slow))))
  {
    StripExact(recovery);
  }

  /** A clean report means that every compared record was migrated exactly: same balance, same unlocked
      amount, and that not above the balance. Then the supply counted on chain is the recovered one. */
  lemma CleanReport(recovery: seq<Record>, db: Chain)
    requires Strip(recovery).Some? && NoneFatal(Strip(recovery).value, db)
    ensures AllErrors(Strip(recovery).value, db) == [] <==>
            forall r :: r in recovery && Compared(r, db) ==>
                          var a := r.account.value;
                          && r.balance == Some(db.coins[a])
                          && (r.slowUnlocked.Some? ==>
                                a in db.slow && db.slow[a] == r.slowUnlocked.value && db.slow[a] <= db.coins[a])
    ensures AllErrors(Strip(recovery).value, db) == [] ==>
              TotalCoins(Strip(recovery).value, db) == TotalRecovered(Strip(recovery).value, db)
  {
    StripExact(recovery);
    var list := Strip(recovery).value;
    NoErrorsIffMigrated(list, db);
    if AllErrors(list, db) == [] {
      MigratedTotals(list, db);
    }
  }

  /** The supply is the sum of the coins of the records that are not dropped and have a coin store. */
  lemma {:induction false} SupplyIsSum(a: seq<Record>, b: seq<Record>, r: Record, db: Chain)
    ensures TotalCoins(a + b, db) == TotalCoins(a, db) + TotalCoins(b, db)
    ensures TotalCoins([r], db) ==
            if r.account.Some? && r.role != Drop && r.account.value in db.coins then db.coins[r.account.value] else 0
  {
    assert ([r])[..0] == [];
    if b == [] {
      assert a + b == a;
    } else {
      SupplyIsSum(a, b[..|b| - 1], r, db);
      assert (a + b)[..|a + b| - 1] == a + b[..|b| - 1];
    }
  }

  // ----- The validator set -----

  /** Both assertions hold: equal lengths, and every expected validator is on chain. */
  predicate ValSetPasses(expected: seq<Account>, onChain: seq<Account>) {
    |onChain| == |expected| && forall v :: v in expected ==> v in onChain
  }

  method CheckValSet(expected: seq<Account>, onChain: seq<Account>) returns (passed: bool)
    ensures passed <==> ValSetPasses(expected, onChain)
  {
    if |onChain| != |expected| { return false; }
    for i := 0 to |expected|
      invariant forall j :: 0 <= j < i ==> expected[j] in onChain
    {
      if expected[i] !in onChain { return false; }
    }
    passed := true;
  }

  predicate Distinct<T(==)>(s: seq<T>) {
    forall i, j :: 0 <= i < j < |s| ==> s[i] != s[j]
  }

  lemma {:induction false} ContainmentIsPermutation(expected: seq<Account>, onChain: seq<Account>)
    requires Distinct(expected) && ValSetPasses(expected, onChain)
    ensures multiset(onChain) == multiset(expected)
  {
    if expected == [] {
    } else {
      var v := expected[0];
      assert v in onChain;
      var k :| 0 <= k < |onChain| && onChain[k] == v;
      var others := onChain[..k] + onChain[k + 1..];
      assert onChain == onChain[..k] + [v] + onChain[k + 1..];
      assert expected == [v] + expected[1..];
      forall w | w in expected[1..]
        ensures w in others
      {
        assert w in expected && w != v;
      }
      ContainmentIsPermutation(expected[1..], others);
    }
  }

  lemma PermutationKeepsDistinct(s: seq<Account>, t: seq<Account>)
    requires Distinct(s) && multiset(s) == multiset(t)
    ensures Distinct(t)
  {
    forall i, j | 0 <= i < j < |t|
      ensures t[i] != t[j]
    {
      if t[i] == t[j] {
        assert t == t[..i] + [t[i]] + t[i + 1..j] + [t[j]] + t[j + 1..];
        assert multiset(s)[t[i]] >= 2;
        AtMostOnce(s, t[i]);
      }
    }
  }

  lemma {:induction false} AtMostOnce(s: seq<Account>, v: Account)
    requires Distinct(s)
    ensures multiset(s)[v] <= 1
  {
    if s == [] {
    } else {
      assert s == [s[0]] + s[1..];
      AtMostOnce(s[1..], v);
      assert s[0] == v ==> v !in s[1..];
    }
  }

  /** Passing the two checks guarantees a permutation, for every on-chain list, exactly when the
      expected validators are distinct. */
  lemma ValSetCheckSound(expected: seq<Account>)
    ensures Distinct(expected) <==>
            forall onChain :: ValSetPasses(expected, onChain) ==> multiset(onChain) == multiset(expected)
  {
    if Distinct(expected) {
      forall onChain | ValSetPasses(expected, onChain)
        ensures multiset(onChain) == multiset(expected)
      {
        ContainmentIsPermutation(expected, onChain);
      }
    } else {
      var i, j :| 0 <= i < j < |expected| && expected[i] == expected[j];
      var a := expected[j];
      var changed: byte := if a[0] == 0 then 1 else 0;
      var other: Account := a[0 := changed];
      var onChain := expected[j := other];
      assert onChain[i] == expected[j];
      forall v | v in expected
        ensures v in onChain
      {
        var k :| 0 <= k < |expected| && expected[k] == v;
        assert onChain[if k == j then i else k] == v;
      }
      assert ValSetPasses(expected, onChain);
      assert multiset(onChain)[other] == multiset(expected)[other] + 1;
    }
  }
}
