/** The movements the system posts: grants, adjustments, stakes and settlements. */
module Postings {
  import opened Prelude
  import opened Ids
  import opened Money
  import opened Ledgers
  import opened Wagers

  /** A debit and a credit of one amount. */
  function TransferEntries(kind: EntryKind, from: Account, to: Account, amount: Int64): (r: Option<seq<LedgerEntry>>)
    ensures r.Some? <==> !from.IsZero() && !to.IsZero() && !kind.EntryUnknown? && amount != 0 && Safe(amount)
    ensures r.Some? ==>
              r.value == [LedgerEntry(from, 0 - amount, kind), LedgerEntry(to, amount, kind)]
  {
    match Neg(amount)
    case None => None
    case Some(debitAmount) =>
      match NewLedgerEntry(from, debitAmount, kind)
      case None => None
      case Some(debit) =>
        match NewLedgerEntry(to, amount, kind)
        case None => None
        case Some(credit) => Some([debit, credit])
  }

  /** An entry its constructor gives, on an account its constructor gives. */
  predicate Minted(e: LedgerEntry) {
    && NewAccount(e.account.kind, e.account.owner) == Some(e.account)
    && NewLedgerEntry(e.account, e.amount, e.kind) == Some(e)
  }

  predicate AllMinted(entries: seq<LedgerEntry>) { forall i | 0 <= i < |entries| :: Minted(entries[i]) }

  lemma PairMinted(kind: EntryKind, from: Account, to: Account, amount: Int64)
    requires from.Constructed() && to.Constructed() && TransferEntries(kind, from, to, amount).Some?
    ensures AllMinted(TransferEntries(kind, from, to, amount).value)
  {}

  lemma GrantMinted(id: string, user: string, amount: Int64, at: Time)
    requires GrantOf(id, user, amount, at).Some?
    ensures AllMinted(GrantOf(id, user, amount, at).value.entries)
  {
    hide AllMinted, Admits;
    PairMinted(Grant, ISSUANCE, Account(UserCash, user), amount);
  }

  /** An adjustment posts between any two accounts that were built. */
  lemma AdjustmentMinted(id: string, from: Account, to: Account, amount: Int64, wagerId: string, at: Time)
    requires (from.IsZero() || from.Constructed()) && (to.IsZero() || to.Constructed())
    requires AdjustmentOf(id, from, to, amount, wagerId, at).Some?
    ensures AllMinted(AdjustmentOf(id, from, to, amount, wagerId, at).value.entries)
  {
    hide AllMinted, Admits;
    PairMinted(Adjustment, from, to, amount);
  }

  lemma StakeMinted(id: string, w: Wager, at: Time)
    requires StakeOf(id, w, at).Some?
    ensures AllMinted(StakeOf(id, w, at).value.entries)
  {
    hide AllMinted, Admits;
    PairMinted(Stake, Account(UserCash, w.userId), Account(UserEscrow, w.userId), w.stake);
  }

  lemma SettlementMinted(id: string, w: Wager, at: Time)
    requires SettlementOf(id, w, at).Some?
    ensures AllMinted(SettlementOf(id, w, at).value.entries)
  {
    hide Admits;
  }

  lemma PairAdmitted(id: string, kind: EntryKind, from: Account, to: Account, amount: Int64, wagerId: string, at: Time)
    requires TransferEntries(kind, from, to, amount).Some?
    ensures var es := TransferEntries(kind, from, to, amount).value;
            && (Admits(TransactionParams(id, kind, es, wagerId, at)) <==>
                ValidId(id) && (wagerId != "" ==> ValidId(wagerId)) && at != ZERO_TIME)
            && forall a :: EntryNet(a, es) == (if a == from then 0 - amount else 0) + (if a == to then amount else 0)
  {
    var d, c := LedgerEntry(from, 0 - amount, kind), LedgerEntry(to, amount, kind);
    assert Amounts([d, c]) == [] + [0 - amount] + [amount];
    assert [d, c] == [] + [d] + [c];
    PrefixSafeSnoc([], 0 - amount);
    PrefixSafeSnoc([] + [0 - amount], amount);
    SumSnoc([], 0 - amount);
    SumSnoc([] + [0 - amount], amount);
    forall a ensures EntryNet(a, [d, c]) == (if a == from then 0 - amount else 0) + (if a == to then amount else 0) {
      EntryNetSnoc(a, [], d);
      EntryNetSnoc(a, [] + [d], c);
    }
  }

  function GrantOf(id: string, user: string, amount: Int64, at: Time): Option<Transaction> {
    if amount <= 0 then None
    else
      match NewAccount(UserCash, user)
      case None => None
      case Some(cash) =>
        match TransferEntries(Grant, ISSUANCE, cash, amount)
        case None => None
        case Some(entries) => TransactionOf(TransactionParams(id, Grant, entries, "", at))
  }

  function AdjustmentOf(id: string, from: Account, to: Account, amount: Int64, wagerId: string, at: Time)
    : Option<Transaction>
  {
    if from.IsZero() || to.IsZero() then None
    else if from == to then None
    else if amount <= 0 then None
    else
      match TransferEntries(Adjustment, from, to, amount)
      case None => None
      case Some(entries) => TransactionOf(TransactionParams(id, Adjustment, entries, wagerId, at))
  }

  function StakeOf(id: string, w: Wager, at: Time): Option<Transaction> {
    if w.id == "" then None
    else
      match NewAccount(UserCash, w.userId)
      case None => None
      case Some(cash) =>
        match NewAccount(UserEscrow, w.userId)
        case None => None
        case Some(escrow) =>
          match TransferEntries(Stake, cash, escrow, w.stake)
          case None => None
          case Some(entries) => TransactionOf(TransactionParams(id, Stake, entries, w.id, at))
  }

  function SettlementKind(s: WagerStatus): Option<EntryKind> {
    match s
    case Won => Some(Payout)
    case Lost => Some(Loss)
    case Void => Some(Refund)
    case Push => Some(Refund)
    case CashedOut => Some(CashOutEntry)
    case _ => None
  }

  /** One signed movement, or nothing when it would move nothing. */
  function Move(account: Account, amount: Int64, kind: EntryKind): seq<LedgerEntry> {
    if amount == 0 then [] else [LedgerEntry(account, amount, kind)]
  }

  /** Escrow gives the stake up, cash takes what was returned, the house takes or funds the rest. */
  function SettlementEntries(w: Wager, kind: EntryKind): seq<LedgerEntry>
    requires Safe(w.stake) && Safe(w.stake - w.returned)
  {
    Move(Account(UserEscrow, w.userId), 0 - w.stake, kind)
    + Move(Account(UserCash, w.userId), w.returned, kind)
    + Move(HOUSE, w.stake - w.returned, kind)
  }

  /** The settlement a wager calls for, if it has closed. */
  function SettlementOf(id: string, w: Wager, at: Time): Option<Transaction> {
    if !w.hasReturned || SettlementKind(w.status).None? || !ValidId(w.userId) then None
    else if !Safe(w.stake) || !Safe(w.stake - w.returned) || !Safe(w.returned) then None
    else
      var kind := SettlementKind(w.status).value;
      TransactionOf(TransactionParams(id, kind, SettlementEntries(w, kind), w.id, at))
  }

  /** The code's loop over the three movements, dropping those that come out to zero. */
  method NewSettlementTransaction(id: string, w: Wager, at: Time) returns (r: Option<Transaction>)
    ensures r == SettlementOf(id, w, at)
  {
    hide TransactionOf, Neg, Sub;
    if !w.hasReturned {
      return None;
    }
    var kind := SettlementKind(w.status);
    var cash, escrow := NewAccount(UserCash, w.userId), NewAccount(UserEscrow, w.userId);
    if kind.None? || cash.None? || escrow.None? {
      return None;
    }
    var releasedEscrow, houseDelta := Neg(w.stake), Sub(w.stake, w.returned);
    if releasedEscrow.None? || houseDelta.None? {
      return None;
    }
    var moves := [(escrow.value, releasedEscrow.value), (cash.value, w.returned), (HOUSE, houseDelta.value)];
    var entries := [];
    for i := 0 to 3
      invariant i > 1 ==> Safe(w.returned)
      invariant entries == (if i > 0 then Move(moves[0].0, moves[0].1, kind.value) else [])
                           + (if i > 1 then Move(moves[1].0, moves[1].1, kind.value) else [])
                           + (if i > 2 then Move(moves[2].0, moves[2].1, kind.value) else [])
    {
      if moves[i].1 != 0 {
        var entry := NewLedgerEntry(moves[i].0, moves[i].1, kind.value);
        if entry.None? {
          return None;
        }
        entries := entries + [entry.value];
      }
    }
    r := NewTransaction(TransactionParams(id, kind.value, entries, w.id, at));
  }

  /** Who, what kind, when, and for which wager, if any. */
  predicate Records(t: Transaction, id: string, kind: EntryKind, wagerId: string, at: Time) {
    && t.id == id && t.kind == kind && t.occurredAt == at && t.wagerId == wagerId
    && (t.hasWager <==> wagerId != "") && forall i | 0 <= i < |t.entries| :: t.entries[i].kind == kind
  }

  /** The kind each closing is to be filed under: what comes back unplayed is a refund. */
  function ClosingKind(s: WagerStatus): EntryKind {
    match s
    case Won => Payout
    case Lost => Loss
    case CashedOut => CashOutEntry
    case _ => Refund
  }

  /** A grant moves its amount from issuance to the customer's cash and touches nothing else. */
  lemma GrantPosts(id: string, user: string, amount: Int64, at: Time)
    ensures GrantOf(id, user, amount, at).Some? <==>
            ValidId(id) && ValidId(user) && 0 < amount <= MAX_SAFE && at != ZERO_TIME
    ensures var r := GrantOf(id, user, amount, at);
            r.Some? ==>
              && r.value.Constructed() && Records(r.value, id, Grant, "", at)
              && forall a :: EntryNet(a, r.value.entries)
                          == (if a == ISSUANCE then 0 - amount else 0) + (if a == Account(UserCash, user) then amount else 0)
  {
    if amount > 0 && ValidId(user) && TransferEntries(Grant, ISSUANCE, Account(UserCash, user), amount).Some? {
      PairAdmitted(id, Grant, ISSUANCE, Account(UserCash, user), amount, "", at);
    }
  }

  lemma AdjustmentPosts(id: string, from: Account, to: Account, amount: Int64, wagerId: string, at: Time)
    ensures AdjustmentOf(id, from, to, amount, wagerId, at).Some? <==>
            && ValidId(id) && !from.IsZero() && !to.IsZero() && from != to && 0 < amount <= MAX_SAFE
            && (wagerId != "" ==> ValidId(wagerId)) && at != ZERO_TIME
    ensures var r := AdjustmentOf(id, from, to, amount, wagerId, at);
            r.Some? ==>
              && r.value.Constructed() && Records(r.value, id, Adjustment, wagerId, at)
              && forall a :: EntryNet(a, r.value.entries)
                          == (if a == from then 0 - amount else 0) + (if a == to then amount else 0)
  {
    if amount > 0 && TransferEntries(Adjustment, from, to, amount).Some? {
      PairAdmitted(id, Adjustment, from, to, amount, wagerId, at);
    }
  }

  /** A placed wager's stake always posts, from cash to escrow. */
  lemma StakePosts(id: string, w: Wager, at: Time)
    requires w.Inv()
    ensures StakeOf(id, w, at).Some? <==> ValidId(id) && at != ZERO_TIME
    ensures var r := StakeOf(id, w, at);
            r.Some? ==>
              && r.value.Constructed() && Records(r.value, id, Stake, w.id, at)
              && forall a :: EntryNet(a, r.value.entries)
                          == (if a == Account(UserCash, w.userId) then 0 - w.stake else 0)
                             + (if a == Account(UserEscrow, w.userId) then w.stake else 0)
  {
    assert ValidId(w.Terms().id) && ValidId(w.Terms().userId);
    PairAdmitted(id, Stake, Account(UserCash, w.userId), Account(UserEscrow, w.userId), w.stake, w.id, at);
  }

  lemma MoveNet(a: Account, account: Account, amount: Int64, kind: EntryKind)
    ensures EntryNet(a, Move(account, amount, kind)) == if a == account then amount else 0
  {
    EntryNetSnoc(a, [], LedgerEntry(account, amount, kind));
    assert [] + [LedgerEntry(account, amount, kind)] == [LedgerEntry(account, amount, kind)];
  }

  lemma MoveExtends(entries: seq<LedgerEntry>, account: Account, amount: Int64, kind: EntryKind)
    requires PrefixSafe(Amounts(entries)) && Safe(Sum(Amounts(entries)) + amount)
    ensures PrefixSafe(Amounts(entries + Move(account, amount, kind)))
    ensures Sum(Amounts(entries + Move(account, amount, kind))) == Sum(Amounts(entries)) + amount
  {
    if amount == 0 {
      assert entries + [] == entries;
    } else {
      AmountsSnoc(entries, LedgerEntry(account, amount, kind));
      PrefixSafeSnoc(Amounts(entries), amount);
    }
  }

  /** Any returned amount balances the three movements, and no partial sum leaves the safe range. */
  lemma ThreeMoves(escrow: Account, cash: Account, stake: Int64, returned: Int64, kind: EntryKind)
    requires 0 < stake <= MAX_SAFE && 0 <= returned <= MAX_SAFE && !kind.EntryUnknown?
    requires !escrow.IsZero() && !cash.IsZero()
    ensures var es := Move(escrow, 0 - stake, kind) + Move(cash, returned, kind) + Move(HOUSE, stake - returned, kind);
            && 2 <= |es| <= 3 && EntriesOk(kind, es)
            && PrefixSafe(Amounts(es)) && Sum(Amounts(es)) == 0
  {
    assert Amounts([]) == [] && PrefixSafe([]) && Sum([]) == 0;
    hide PrefixSafe, Sum;
    MoveExtends([], escrow, 0 - stake, kind);
    var one := [] + Move(escrow, 0 - stake, kind);
    MoveExtends(one, cash, returned, kind);
    var two := one + Move(cash, returned, kind);
    MoveExtends(two, HOUSE, stake - returned, kind);
    assert Move(escrow, 0 - stake, kind) == one;
  }

  lemma SettlementAmounts(w: Wager, kind: EntryKind)
    requires w.Inv() && w.hasReturned && !kind.EntryUnknown?
    ensures var es := SettlementEntries(w, kind);
            && 2 <= |es| <= 3 && EntriesOk(kind, es)
            && PrefixSafe(Amounts(es)) && Sum(Amounts(es)) == 0
  {
    hide PrefixSafe, Sum;
    assert 0 < w.stake <= w.payout <= MAX_SAFE && 0 <= w.returned <= w.payout;
    ThreeMoves(Account(UserEscrow, w.userId), Account(UserCash, w.userId), w.stake, w.returned, kind);
  }

  lemma SettlementNets(w: Wager, kind: EntryKind, a: Account)
    requires w.Inv() && w.hasReturned
    ensures EntryNet(a, SettlementEntries(w, kind))
         == (if a == Account(UserEscrow, w.userId) then 0 - w.stake else 0)
            + (if a == Account(UserCash, w.userId) then w.returned else 0)
            + (if a == HOUSE then w.stake - w.returned else 0)
  {
    var escrow, cash := Account(UserEscrow, w.userId), Account(UserCash, w.userId);
    var one, two := Move(escrow, 0 - w.stake, kind), Move(cash, w.returned, kind);
    MoveNet(a, escrow, 0 - w.stake, kind);
    MoveNet(a, cash, w.returned, kind);
    MoveNet(a, HOUSE, w.stake - w.returned, kind);
    EntryNetConcat(a, one + two, Move(HOUSE, w.stake - w.returned, kind));
    EntryNetConcat(a, one, two);
  }

  lemma TermsInRange(w: Wager)
    requires w.Inv()
    ensures ValidId(w.id) && w.id != "" && ValidId(w.userId)
    ensures 0 < w.stake <= w.payout <= MAX_SAFE && 0 <= w.returned <= w.payout
    ensures w.hasReturned <==> SettlementKind(w.status).Some?
  {
    hide RoundReal, LegSetOk, TeaserOk;
    assert ValidId(w.Terms().id) && ValidId(w.Terms().userId);
  }

  /**
   * Every reachable closed wager settles, given a valid identifier and instant:
   * two or three non-zero entries of one kind that sum to zero with no partial sum
   * out of range, and nothing but the wager's own accounts and the house moved.
   */
  lemma SettlementPosts(id: string, w: Wager, at: Time)
    requires w.Inv()
    ensures SettlementOf(id, w, at).Some? <==> w.hasReturned && ValidId(id) && at != ZERO_TIME
    ensures var r := SettlementOf(id, w, at);
            r.Some? ==>
              && r.value.Constructed() && 2 <= |r.value.entries| <= 3
              && Records(r.value, id, ClosingKind(w.status), w.id, at)
              && forall a :: EntryNet(a, r.value.entries)
                          == (if a == Account(UserEscrow, w.userId) then 0 - w.stake else 0)
                             + (if a == Account(UserCash, w.userId) then w.returned else 0)
                             + (if a == HOUSE then w.stake - w.returned else 0)
  {
    TermsInRange(w);
    hide Wager.Inv, SettlementEntries, EntryNet, EntriesOk, PrefixSafe, Sum;
    if w.hasReturned {
      var kind := SettlementKind(w.status).value;
      SettlementAmounts(w, kind);
      forall a ensures EntryNet(a, SettlementEntries(w, kind))
                    == (if a == Account(UserEscrow, w.userId) then 0 - w.stake else 0)
                       + (if a == Account(UserCash, w.userId) then w.returned else 0)
                       + (if a == HOUSE then w.stake - w.returned else 0) {
        SettlementNets(w, kind, a);
      }
    }
  }

  /**
   * The kind a settlement is filed under says who was paid: a payout is a win that
   * returned at least the stake, a loss leaves cash alone, a refund leaves the house
   * alone, and nothing else is ever posted but a cash-out.
   */
  lemma KindMatchesMovement(id: string, w: Wager, at: Time)
    requires w.Inv() && SettlementOf(id, w, at).Some?
    ensures var t := SettlementOf(id, w, at).value;
            var cash, house := EntryNet(Account(UserCash, w.userId), t.entries), EntryNet(HOUSE, t.entries);
            && (t.kind == Payout <==> w.status.Won?) && (t.kind == CashOutEntry <==> w.status.CashedOut?)
            && (t.kind == Payout ==> cash >= w.stake && house <= 0)
            && (t.kind == Loss <==> cash == 0)
            && (t.kind == Refund ==> cash == w.stake && house == 0)
            && t.kind in {Payout, Loss, Refund, CashOutEntry}
  {
    SettlementPosts(id, w, at);
  }

  /** The stake posted at placement and the settlement leave the wager's escrow at exactly zero. */
  lemma EscrowNetsToZero(stakeId: string, settleId: string, placed: Wager, closed: Wager, at: Time, later: Time)
    requires placed.Inv() && closed.Inv() && closed.Terms() == placed.Terms()
    requires StakeOf(stakeId, placed, at).Some? && SettlementOf(settleId, closed, later).Some?
    ensures Net(Account(UserEscrow, placed.userId),
                [StakeOf(stakeId, placed, at).value, SettlementOf(settleId, closed, later).value]) == 0
  {
    hide StakeOf, SettlementOf, EntryNet, Net, Transaction.Constructed, Records, Wager.Inv;
    var escrow := Account(UserEscrow, placed.userId);
    var s, t := StakeOf(stakeId, placed, at).value, SettlementOf(settleId, closed, later).value;
    assert placed.Terms().userId == closed.Terms().userId && placed.Terms().stake == closed.Terms().stake;
    hide Wager.Terms;
    StakePosts(stakeId, placed, at);
    assert EntryNet(escrow, s.entries) == placed.stake;
    SettlementPosts(settleId, closed, later);
    assert EntryNet(escrow, t.entries) == 0 - closed.stake;
    NoNet(escrow);
    NetSnoc(escrow, [], s);
    NetSnoc(escrow, [s], t);
    assert [s, t] == [s] + [t] && [] + [s] == [s];
  }

  lemma NoNet(account: Account)
    ensures Net(account, []) == 0
  {}
}
