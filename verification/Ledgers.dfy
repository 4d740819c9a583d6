/**
 * The double-entry ledger: transactions that cannot be built unbalanced, and the
 * folds that derive every balance from them.
 */
module Ledgers {
  import opened Prelude
  import opened Ids
  import opened Money

  datatype AccountKind = AccountUnknown | UserCash | UserEscrow | House | Issuance {
    predicate IsUserOwned() { UserCash? || UserEscrow? }
  }

  /** An account is its (kind, owner) pair; system accounts have no owner. */
  datatype Account = Account(kind: AccountKind, owner: string) {
    predicate IsZero() { kind.AccountUnknown? }

    predicate Constructed() {
      !kind.AccountUnknown? && if kind.IsUserOwned() then ValidId(owner) else owner == ""
    }
  }

  const HOUSE := Account(House, "")
  const ISSUANCE := Account(Issuance, "")

  function NewAccount(kind: AccountKind, owner: string): (r: Option<Account>)
    ensures r.Some? <==>
            || ((kind == UserCash || kind == UserEscrow) && ValidId(owner))
            || ((kind == House || kind == Issuance) && owner == "")
    ensures r.Some? <==> Account(kind, owner).Constructed()
    ensures r.Some? ==> r.value == Account(kind, owner)
  {
    if kind.AccountUnknown? then None
    else if kind.IsUserOwned() then (if ValidId(owner) then Some(Account(kind, owner)) else None)
    else if owner != "" then None
    else Some(Account(kind, ""))
  }

  datatype EntryKind = EntryUnknown | Grant | Stake | Payout | Loss | Refund | CashOutEntry | Adjustment

  datatype LedgerEntry = LedgerEntry(account: Account, amount: Int64, kind: EntryKind)

  function NewLedgerEntry(account: Account, amount: Int64, kind: EntryKind): (r: Option<LedgerEntry>)
    ensures r.Some? <==> !account.IsZero() && !kind.EntryUnknown? && amount != 0 && Safe(amount)
    ensures r.Some? ==> r.value == LedgerEntry(account, amount, kind)
  {
    if account.IsZero() then None
    else if kind.EntryUnknown? then None
    else if amount == 0 then None
    else if amount > MAX_SAFE || amount < MIN_SAFE then None
    else Some(LedgerEntry(account, amount, kind))
  }

  function Amounts(entries: seq<LedgerEntry>): (r: seq<Int64>)
    ensures |r| == |entries|
  {
    seq(|entries|, i requires 0 <= i < |entries| => entries[i].amount)
  }

  lemma AmountsSnoc(entries: seq<LedgerEntry>, e: LedgerEntry)
    ensures Amounts(entries + [e]) == Amounts(entries) + [e.amount]
    ensures Sum(Amounts(entries + [e])) == Sum(Amounts(entries)) + e.amount
  {
    assert Amounts(entries + [e]) == Amounts(entries) + [e.amount];
    SumSnoc(Amounts(entries), e.amount);
  }

  datatype Transaction = Transaction(id: string, kind: EntryKind, entries: seq<LedgerEntry>, wagerId: string,
                                     hasWager: bool, occurredAt: Time) {

    /** What every constructed transaction satisfies; in particular it sums to exactly zero. */
    predicate Constructed() { this == Built(Params()) && Admits(Params()) }

    function Params(): TransactionParams { TransactionParams(id, kind, entries, wagerId, occurredAt) }
  }

  datatype TransactionParams = TransactionParams(id: string, kind: EntryKind, entries: seq<LedgerEntry>,
                                                 wagerId: string, occurredAt: Time)

  /** At least two non-zero entries of one kind that sum to zero without any partial sum leaving the safe range. */
  predicate Admits(p: TransactionParams) {
    && ValidId(p.id) && !p.kind.EntryUnknown?
    && |p.entries| >= 2 && EntriesOk(p.kind, p.entries)
    && PrefixSafe(Amounts(p.entries)) && Sum(Amounts(p.entries)) == 0
    && (p.wagerId != "" ==> ValidId(p.wagerId))
    && p.occurredAt != ZERO_TIME
  }

  predicate EntriesOk(kind: EntryKind, entries: seq<LedgerEntry>) {
    forall i | 0 <= i < |entries| ::
      !entries[i].account.IsZero() && entries[i].amount != 0 && entries[i].kind == kind
  }

  function Built(p: TransactionParams): Transaction {
    Transaction(p.id, p.kind, p.entries, p.wagerId, p.wagerId != "", p.occurredAt)
  }

  function TransactionOf(p: TransactionParams): Option<Transaction> {
    if Admits(p) then Some(Built(p)) else None
  }

  /** Exactly which transactions can be built, spelt out, and that one records what it was built from. */
  lemma TransactionExactly(p: TransactionParams)
    ensures TransactionOf(p).Some? <==>
            && ValidId(p.id) && p.kind != EntryUnknown && |p.entries| >= 2
            && (forall i | 0 <= i < |p.entries| ::
                  p.entries[i].account.kind != AccountUnknown && p.entries[i].amount != 0 && p.entries[i].kind == p.kind)
            && (forall i | 0 < i <= |p.entries| :: MIN_SAFE <= Sum(Amounts(p.entries)[..i]) <= MAX_SAFE)
            && Sum(Amounts(p.entries)) == 0
            && (p.wagerId == "" || ValidId(p.wagerId)) && p.occurredAt != ZERO_TIME
    ensures TransactionOf(p).Some? ==>
              TransactionOf(p).value == Transaction(p.id, p.kind, p.entries, p.wagerId, p.wagerId != "", p.occurredAt)
  {
    PrefixSafeExactly(Amounts(p.entries));
    hide PrefixSafe, Sum, ValidId;
  }

  method NewTransaction(p: TransactionParams) returns (r: Option<Transaction>)
    ensures r == TransactionOf(p)
  {
    if !ValidId(p.id) || p.kind.EntryUnknown? || |p.entries| < 2 {
      return None;
    }
    var amounts: seq<Int64> := [];
    for i := 0 to |p.entries|
      invariant amounts == Amounts(p.entries[..i])
      invariant EntriesOk(p.kind, p.entries[..i])
    {
      var e := p.entries[i];
      if e.account.IsZero() || e.amount == 0 || e.kind != p.kind {
        assert !EntriesOk(p.kind, p.entries);
        return None;
      }
      amounts := amounts + [e.amount];
      assert p.entries[..i + 1] == p.entries[..i] + [e];
    }
    assert p.entries[..|p.entries|] == p.entries;
    var total := SumMoney(amounts);
    if total.None? || total.value != 0 {
      return None;
    }
    var hasWager := p.wagerId != "";
    if hasWager && !ValidId(p.wagerId) {
      return None;
    }
    if p.occurredAt == ZERO_TIME {
      return None;
    }
    return Some(Transaction(p.id, p.kind, p.entries, p.wagerId, hasWager, p.occurredAt));
  }

  /** The exact net of a list of entries on one account. */
  function EntryNet(account: Account, entries: seq<LedgerEntry>): int {
    if entries == [] then 0
    else
      var e := entries[|entries| - 1];
      EntryNet(account, entries[..|entries| - 1]) + if e.account == account then e.amount else 0
  }

  lemma EntryNetSnoc(account: Account, entries: seq<LedgerEntry>, e: LedgerEntry)
    ensures EntryNet(account, entries + [e])
         == EntryNet(account, entries) + if e.account == account then e.amount else 0
  {
    assert (entries + [e])[..|entries|] == entries;
  }

  lemma {:induction false} EntryNetConcat(account: Account, a: seq<LedgerEntry>, b: seq<LedgerEntry>)
    ensures EntryNet(account, a + b) == EntryNet(account, a) + EntryNet(account, b)
  {
    if b == [] {
      assert a + b == a;
    } else {
      var m := |b| - 1;
      EntryNetConcat(account, a, b[..m]);
      assert a + b == (a + b[..m]) + [b[m]];
      EntryNetSnoc(account, a + b[..m], b[m]);
    }
  }

  /** What each entry contributes to one account. */
  function Contributions(account: Account, entries: seq<LedgerEntry>): (r: seq<int>)
    ensures |r| == |entries|
  {
    seq(|entries|, i requires 0 <= i < |entries| => if entries[i].account == account then entries[i].amount else 0)
  }

  lemma {:induction false} EntryNetIsSum(account: Account, entries: seq<LedgerEntry>)
    ensures EntryNet(account, entries) == Sum(Contributions(account, entries))
  {
    if entries != [] {
      EntryNetIsSum(account, entries[..|entries| - 1]);
      assert Contributions(account, entries)[..|entries| - 1] == Contributions(account, entries[..|entries| - 1]);
    }
  }

  /** The exact net of a list of transactions on one account, transaction by transaction. */
  function Net(account: Account, txns: seq<Transaction>): int {
    if txns == [] then 0
    else Net(account, txns[..|txns| - 1]) + EntryNet(account, txns[|txns| - 1].entries)
  }

  lemma NetSnoc(account: Account, txns: seq<Transaction>, t: Transaction)
    ensures Net(account, txns + [t]) == Net(account, txns) + EntryNet(account, t.entries)
  {
    assert (txns + [t])[..|txns|] == txns;
  }

  /** Every entry of every transaction, in order. */
  function AllEntries(txns: seq<Transaction>): seq<LedgerEntry> {
    if txns == [] then [] else AllEntries(txns[..|txns| - 1]) + txns[|txns| - 1].entries
  }

  /** Folding by transaction and folding by entry give the same balance. */
  lemma {:induction false} NetByEntry(account: Account, txns: seq<Transaction>)
    ensures Net(account, txns) == EntryNet(account, AllEntries(txns))
  {
    if txns != [] {
      var m := |txns| - 1;
      NetByEntry(account, txns[..m]);
      EntryNetConcat(account, AllEntries(txns[..m]), txns[m].entries);
    }
  }

  /** No running total of the account, entry by entry, leaves the safe range. */
  predicate NetSafe(account: Account, entries: seq<LedgerEntry>) {
    entries == [] || (NetSafe(account, entries[..|entries| - 1]) && Safe(EntryNet(account, entries)))
  }

  lemma {:induction false} NetSafeTake(account: Account, entries: seq<LedgerEntry>, i: nat)
    requires NetSafe(account, entries) && i <= |entries|
    ensures NetSafe(account, entries[..i])
  {
    if i < |entries| {
      NetSafeTake(account, entries[..|entries| - 1], i);
      assert entries[..|entries| - 1][..i] == entries[..i];
    } else {
      assert entries[..i] == entries;
    }
  }

  lemma {:induction false} NetSafeExactly(account: Account, entries: seq<LedgerEntry>)
    ensures NetSafe(account, entries) <==> forall i | 0 < i <= |entries| :: Safe(EntryNet(account, entries[..i]))
  {
    if entries != [] {
      var init := entries[..|entries| - 1];
      NetSafeExactly(account, init);
      assert entries[..|entries|] == entries;
      assert forall i | 0 < i < |entries| :: entries[..i] == init[..i];
    }
  }

  /** One transaction's net effect on an account. */
  method NetFor(t: Transaction, account: Account) returns (r: Option<Int64>)
    ensures r == if NetSafe(account, t.entries) then Some(EntryNet(account, t.entries)) else None
  {
    var total: Int64 := 0;
    for i := 0 to |t.entries|
      invariant NetSafe(account, t.entries[..i]) && Safe(total) && total == EntryNet(account, t.entries[..i])
    {
      var e := t.entries[i];
      assert t.entries[..i + 1][..i] == t.entries[..i];
      if e.account == account {
        var next := Add(total, e.amount);
        if next.None? {
          if NetSafe(account, t.entries) {
            NetSafeTake(account, t.entries, i + 1);
          }
          return None;
        }
        total := next.value;
      }
    }
    assert t.entries[..|t.entries|] == t.entries;
    return Some(total);
  }

  /** Neither a transaction's own net nor the running balance leaves the safe range. */
  predicate BalanceSafe(account: Account, txns: seq<Transaction>) {
    txns == []
    || (&& BalanceSafe(account, txns[..|txns| - 1])
        && NetSafe(account, txns[|txns| - 1].entries)
        && Safe(Net(account, txns)))
  }

  lemma {:induction false} BalanceSafeTake(account: Account, txns: seq<Transaction>, i: nat)
    requires BalanceSafe(account, txns) && i <= |txns|
    ensures BalanceSafe(account, txns[..i])
  {
    if i < |txns| {
      BalanceSafeTake(account, txns[..|txns| - 1], i);
      assert txns[..|txns| - 1][..i] == txns[..i];
    } else {
      assert txns[..i] == txns;
    }
  }

  /** The fold can take its `i`-th transaction. */
  predicate Steps(account: Account, txns: seq<Transaction>, i: nat)
    requires i < |txns|
  {
    NetSafe(account, txns[i].entries) && Safe(Net(account, txns[..i + 1]))
  }

  lemma {:induction false} BalanceSafeExactly(account: Account, txns: seq<Transaction>)
    ensures BalanceSafe(account, txns) <==> forall i | 0 <= i < |txns| :: Steps(account, txns, i)
  {
    if txns != [] {
      var m := |txns| - 1;
      BalanceSafeExactly(account, txns[..m]);
      assert txns[..m + 1] == txns;
      forall i | 0 <= i < m ensures Steps(account, txns, i) <==> Steps(account, txns[..m], i) {
        assert txns[..i + 1] == txns[..m][..i + 1];
      }
      assert BalanceSafe(account, txns) <==> BalanceSafe(account, txns[..m]) && Steps(account, txns, m);
    }
  }

  /** One account's balance: the sum of its net over every transaction. */
  method Balance(account: Account, txns: seq<Transaction>) returns (r: Option<Int64>)
    ensures r == if !account.IsZero() && BalanceSafe(account, txns) then Some(Net(account, txns)) else None
  {
    if account.IsZero() {
      return None;
    }
    var total: Int64 := 0;
    for i := 0 to |txns|
      invariant BalanceSafe(account, txns[..i]) && Safe(total) && total == Net(account, txns[..i])
    {
      assert txns[..i + 1][..i] == txns[..i];
      assert BalanceSafe(account, txns) ==> BalanceSafe(account, txns[..i + 1]) by {
        if BalanceSafe(account, txns) {
          BalanceSafeTake(account, txns, i + 1);
        }
      }
      var delta := NetFor(txns[i], account);
      if delta.None? {
        return None;
      }
      var next := Add(total, delta.value);
      if next.None? {
        return None;
      }
      total := next.value;
    }
    assert txns[..|txns|] == txns;
    return Some(total);
  }

  ghost function Touched(entries: seq<LedgerEntry>): set<Account> {
    set i | 0 <= i < |entries| :: entries[i].account
  }

  /** Every touched account with its net, an account that nets to nothing included. */
  ghost function BalanceMap(entries: seq<LedgerEntry>): map<Account, int> {
    map a | a in Touched(entries) :: EntryNet(a, entries)
  }

  /** Each running balance, as its account is moved, stays in the safe range. */
  predicate RunningSafe(entries: seq<LedgerEntry>) {
    entries == []
    || (&& RunningSafe(entries[..|entries| - 1])
        && Safe(EntryNet(entries[|entries| - 1].account, entries)))
  }

  lemma {:induction false} RunningSafeExactly(entries: seq<LedgerEntry>)
    ensures RunningSafe(entries) <==>
            forall i | 0 < i <= |entries| :: Safe(EntryNet(entries[i - 1].account, entries[..i]))
  {
    if entries != [] {
      var init := entries[..|entries| - 1];
      RunningSafeExactly(init);
      assert entries[..|entries|] == entries;
      assert forall i | 0 < i < |entries| :: entries[..i] == init[..i] && entries[i - 1] == init[i - 1];
    }
  }

  lemma {:induction false} UntouchedNet(account: Account, entries: seq<LedgerEntry>)
    requires account !in Touched(entries)
    ensures EntryNet(account, entries) == 0
  {
    if entries != [] {
      var m := |entries| - 1;
      assert entries[m].account in Touched(entries);
      assert forall i | 0 <= i < m :: entries[..m][i].account in Touched(entries);
      UntouchedNet(account, entries[..m]);
    }
  }

  lemma TouchedSnoc(entries: seq<LedgerEntry>, e: LedgerEntry)
    ensures Touched(entries + [e]) == Touched(entries) + {e.account}
  {
    var longer := entries + [e];
    forall a | a in Touched(entries) ensures a in Touched(longer) {
      var i :| 0 <= i < |entries| && entries[i].account == a;
      assert longer[i].account == a;
    }
    assert longer[|entries|].account == e.account;
  }

  lemma BalanceMapSnoc(entries: seq<LedgerEntry>, e: LedgerEntry)
    ensures BalanceMap(entries + [e]) == BalanceMap(entries)[e.account := EntryNet(e.account, entries) + e.amount]
  {
    TouchedSnoc(entries, e);
    hide EntryNet, Touched;
    var longer := entries + [e];
    forall a | a in Touched(longer)
      ensures EntryNet(a, longer) == EntryNet(a, entries) + if a == e.account then e.amount else 0
    {
      EntryNetSnoc(a, entries, e);
    }
  }

  lemma RunningSafeSnoc(entries: seq<LedgerEntry>, e: LedgerEntry)
    ensures RunningSafe(entries + [e]) <==>
            RunningSafe(entries) && Safe(EntryNet(e.account, entries) + e.amount)
  {
    assert (entries + [e])[..|entries|] == entries;
  }

  lemma {:induction false} RunningSafePrefix(a: seq<LedgerEntry>, b: seq<LedgerEntry>)
    requires RunningSafe(a + b)
    ensures RunningSafe(a)
  {
    if b == [] {
      assert a + b == a;
    } else {
      var m := |b| - 1;
      assert a + b == (a + b[..m]) + [b[m]];
      RunningSafeSnoc(a + b[..m], b[m]);
      RunningSafePrefix(a, b[..m]);
    }
  }

  /** A missing key of the running map reads as zero. */
  lemma RunningBalance(done: seq<LedgerEntry>, account: Account)
    ensures var m := BalanceMap(done); EntryNet(account, done) == if account in m then m[account] else 0
  {
    if account !in Touched(done) {
      UntouchedNet(account, done);
    }
  }

  /** Moves one account of the running map. */
  method FoldEntry(before: map<Account, Int64>, ghost done: seq<LedgerEntry>, e: LedgerEntry)
    returns (r: Option<map<Account, Int64>>)
    requires before == BalanceMap(done) && RunningSafe(done)
    ensures r == if RunningSafe(done + [e]) then Some(BalanceMap(done + [e])) else None
  {
    RunningBalance(done, e.account);
    RunningSafeSnoc(done, e);
    BalanceMapSnoc(done, e);
    var next := Add(if e.account in before then before[e.account] else 0, e.amount);
    if next.None? {
      return None;
    }
    return Some(before[e.account := next.value]);
  }

  /** Folds one transaction's entries into the running map. */
  method FoldEntries(before: map<Account, Int64>, ghost done: seq<LedgerEntry>, entries: seq<LedgerEntry>)
    returns (r: Option<map<Account, Int64>>)
    requires before == BalanceMap(done) && RunningSafe(done)
    ensures r == if RunningSafe(done + entries) then Some(BalanceMap(done + entries)) else None
  {
    var out := before;
    assert done + entries[..0] == done;
    for i := 0 to |entries|
      invariant RunningSafe(done + entries[..i])
      invariant out == BalanceMap(done + entries[..i])
    {
      assert done + entries[..i + 1] == (done + entries[..i]) + [entries[i]];
      var next := FoldEntry(out, done + entries[..i], entries[i]);
      if next.None? {
        assert done + entries == (done + entries[..i + 1]) + entries[i + 1..];
        if RunningSafe(done + entries) {
          RunningSafePrefix(done + entries[..i + 1], entries[i + 1..]);
        }
        return None;
      }
      out := next.value;
    }
    assert done + entries[..|entries|] == done + entries;
    return Some(out);
  }

  lemma {:induction false} AllEntriesFrom(txns: seq<Transaction>, i: nat)
    requires i <= |txns|
    ensures AllEntries(txns[..i]) + AllEntries(txns[i..]) == AllEntries(txns)
    decreases |txns|
  {
    if i == |txns| {
      assert txns[..i] == txns;
    } else {
      var m := |txns| - 1;
      assert txns[..m][..i] == txns[..i] && txns[i..][..m - i] == txns[..m][i..];
      AllEntriesFrom(txns[..m], i);
    }
  }

  /** The one-pass fold of every balance: exactly the touched accounts, each with its exact net. */
  method Balances(txns: seq<Transaction>) returns (r: Option<map<Account, Int64>>)
    ensures r == if RunningSafe(AllEntries(txns)) then Some(BalanceMap(AllEntries(txns))) else None
  {
    var out: map<Account, Int64> := map[];
    assert BalanceMap([]) == map[] && RunningSafe([]);
    hide EntryNet, BalanceMap, RunningSafe;
    for i := 0 to |txns|
      invariant RunningSafe(AllEntries(txns[..i]))
      invariant out == BalanceMap(AllEntries(txns[..i]))
    {
      assert txns[..i + 1][..i] == txns[..i];
      var next := FoldEntries(out, AllEntries(txns[..i]), txns[i].entries);
      if next.None? {
        AllEntriesFrom(txns, i + 1);
        if RunningSafe(AllEntries(txns)) {
          RunningSafePrefix(AllEntries(txns[..i + 1]), AllEntries(txns[i + 1..]));
        }
        return None;
      }
      out := next.value;
    }
    assert txns[..|txns|] == txns;
    return Some(out);
  }

  /** Whenever both folds succeed they agree, account by account. */
  lemma BalancesAgree(txns: seq<Transaction>, account: Account)
    ensures account in BalanceMap(AllEntries(txns)) ==> BalanceMap(AllEntries(txns))[account] == Net(account, txns)
    ensures account !in BalanceMap(AllEntries(txns)) ==> Net(account, txns) == 0
  {
    NetByEntry(account, txns);
    if account !in Touched(AllEntries(txns)) {
      UntouchedNet(account, AllEntries(txns));
    }
  }

  lemma EmptyTotals()
    ensures MapTotal(BalanceMap([])) == 0 && Sum(Amounts([])) == 0
  {
    assert BalanceMap([]) == map[] && Amounts([]) == [];
  }

  lemma {:induction false} BalanceMapTotal(entries: seq<LedgerEntry>)
    ensures MapTotal(BalanceMap(entries)) == Sum(Amounts(entries))
  {
    hide EntryNet, MapTotal, Sum, Touched;
    EmptyTotals();
    if entries != [] {
      var init, e := entries[..|entries| - 1], entries[|entries| - 1];
      assert entries == init + [e];
      BalanceMapTotal(init);
      BalanceMapSnoc(init, e);
      AmountsSnoc(init, e);
      MapTotalUpdate(BalanceMap(init), e.account, EntryNet(e.account, init) + e.amount);
      RunningBalance(init, e.account);
    }
  }

  lemma AmountsConcat(a: seq<LedgerEntry>, b: seq<LedgerEntry>)
    ensures Amounts(a + b) == Amounts(a) + Amounts(b)
  {}

  /** Running sums over a second list that follows a first summing to zero repeat the second's own. */
  lemma {:induction false} PrefixSafeConcat(a: seq<int>, b: seq<int>)
    requires PrefixSafe(a) && Sum(a) == 0 && PrefixSafe(b)
    ensures PrefixSafe(a + b) && Sum(a + b) == Sum(b)
  {
    if b == [] {
      assert a + b == a;
    } else {
      var m := |b| - 1;
      assert a + b == (a + b[..m]) + [b[m]];
      PrefixSafeConcat(a, b[..m]);
      PrefixSafeSnoc(a + b[..m], b[m]);
      SumSnoc(a + b[..m], b[m]);
    }
  }

  /** Any list of constructed transactions sums to zero with every partial sum in range. */
  lemma {:induction false} ConstructedBalance(txns: seq<Transaction>)
    requires forall i | 0 <= i < |txns| :: txns[i].Constructed()
    ensures PrefixSafe(Amounts(AllEntries(txns))) && Sum(Amounts(AllEntries(txns))) == 0
  {
    if txns == [] {
      assert Amounts(AllEntries(txns)) == [];
    } else {
      var m := |txns| - 1;
      ConstructedBalance(txns[..m]);
      assert txns[m].Constructed();
      AmountsConcat(AllEntries(txns[..m]), txns[m].entries);
      PrefixSafeConcat(Amounts(AllEntries(txns[..m])), Amounts(txns[m].entries));
    }
  }

  /** Over all accounts, the balances of any list of constructed transactions add up to zero. */
  lemma BalancesSumToZero(txns: seq<Transaction>)
    requires forall i | 0 <= i < |txns| :: txns[i].Constructed()
    ensures MapTotal(BalanceMap(AllEntries(txns))) == 0
  {
    ConstructedBalance(txns);
    BalanceMapTotal(AllEntries(txns));
  }

  lemma PrefixSafePrefix(a: seq<int>, b: seq<int>)
    requires PrefixSafe(a + b)
    ensures PrefixSafe(a)
  {
    PrefixSafeTake(a + b, |a|);
    assert (a + b)[..|a|] == a;
  }

  /** Adds one transaction's entries to the running ledger total. */
  method AddEntries(before: Int64, ghost done: seq<LedgerEntry>, entries: seq<LedgerEntry>) returns (r: Option<Int64>)
    requires PrefixSafe(Amounts(done)) && before == Sum(Amounts(done))
    ensures r == if PrefixSafe(Amounts(done + entries)) then Some(Sum(Amounts(done + entries))) else None
  {
    hide Sum, PrefixSafe;
    var total := before;
    assert done + entries[..0] == done;
    for i := 0 to |entries|
      invariant PrefixSafe(Amounts(done + entries[..i])) && total == Sum(Amounts(done + entries[..i]))
    {
      ghost var seen := done + entries[..i];
      assert done + entries[..i + 1] == seen + [entries[i]];
      AmountsSnoc(seen, entries[i]);
      PrefixSafeSnoc(Amounts(seen), entries[i].amount);
      var next := Add(total, entries[i].amount);
      if next.None? {
        assert done + entries == (seen + [entries[i]]) + entries[i + 1..];
        AmountsConcat(seen + [entries[i]], entries[i + 1..]);
        if PrefixSafe(Amounts(done + entries)) {
          PrefixSafePrefix(Amounts(seen + [entries[i]]), Amounts(entries[i + 1..]));
        }
        return None;
      }
      total := next.value;
    }
    assert done + entries[..|entries|] == done + entries;
    return Some(total);
  }

  /**
   * The audit: every entry of every transaction, added up. It fails on an
   * overflow or a non-zero total, and neither can happen to constructed transactions.
   */
  method LedgerIsBalanced(txns: seq<Transaction>) returns (ok: bool)
    ensures ok <==> PrefixSafe(Amounts(AllEntries(txns))) && Sum(Amounts(AllEntries(txns))) == 0
    ensures (forall i | 0 <= i < |txns| :: txns[i].Constructed()) ==> ok
  {
    if forall i | 0 <= i < |txns| :: txns[i].Constructed() {
      ConstructedBalance(txns);
    }
    assert PrefixSafe(Amounts(AllEntries([]))) && Sum(Amounts(AllEntries([]))) == 0;
    hide PrefixSafe, Sum, Transaction.Constructed;
    var total: Int64 := 0;
    for i := 0 to |txns|
      invariant PrefixSafe(Amounts(AllEntries(txns[..i]))) && total == Sum(Amounts(AllEntries(txns[..i])))
    {
      assert txns[..i + 1][..i] == txns[..i];
      var next := AddEntries(total, AllEntries(txns[..i]), txns[i].entries);
      if next.None? {
        AllEntriesFrom(txns, i + 1);
        AmountsConcat(AllEntries(txns[..i + 1]), AllEntries(txns[i + 1..]));
        if PrefixSafe(Amounts(AllEntries(txns))) {
          PrefixSafePrefix(Amounts(AllEntries(txns[..i + 1])), Amounts(AllEntries(txns[i + 1..])));
        }
        return false;
      }
      total := next.value;
    }
    assert txns[..|txns|] == txns;
    return total == 0;
  }
}
