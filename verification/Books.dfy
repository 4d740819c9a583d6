/**
 * The book: every wager placed and every transaction posted. A stake is posted
 * when a wager is placed and a settlement when it leaves a status that holds
 * escrow; each operation either takes effect whole or changes nothing.
 */
module Books {
  import opened Prelude
  import opened Ids
  import opened Money
  import opened Legs
  import opened Wagers
  import opened Ledgers
  import opened Postings
  import WagerRuns

  /** `grants` logs the accepted grants, (user, amount), beside the transactions they posted. */
  datatype Book = Book(wagers: seq<Wager>, txns: seq<Transaction>, grants: seq<(string, Int64)>)

  const EMPTY := Book([], [], [])

  datatype Op =
    | GrantTo(txnId: string, user: string, amount: Int64, at: Time)
    | Place(txnId: string, terms: WagerParams)
    | Advance(txnId: string, wager: nat, event: WagerRuns.Event)
    | Adjust(txnId: string, from: Account, to: Account, amount: Int64, wagerId: string, at: Time)

  /** Legs only come out of their constructor; every other input is unrestricted. */
  predicate OpOk(op: Op) {
    op.Place? ==> forall i | 0 <= i < |op.terms.legs| :: op.terms.legs[i].IsZero() || op.terms.legs[i].Constructed()
  }

  function Granted(b: Book, txnId: string, user: string, amount: Int64, at: Time): Book {
    var t := GrantOf(txnId, user, amount, at);
    if t.None? then b else Book(b.wagers, b.txns + [t.value], b.grants + [(user, amount)])
  }

  function PlacedIn(b: Book, txnId: string, terms: WagerParams): Book
    requires forall i | 0 <= i < |terms.legs| :: terms.legs[i].IsZero() || terms.legs[i].Constructed()
  {
    var w := NewWager(terms);
    if w.None? then b
    else
      var t := StakeOf(txnId, w.value, terms.placedAt);
      if t.None? then b else Book(b.wagers + [w.value], b.txns + [t.value], b.grants)
  }

  function Advanced(b: Book, txnId: string, i: nat, e: WagerRuns.Event): Book {
    if i >= |b.wagers| || WagerRuns.Try(b.wagers[i], e).None? then b
    else
      var before, after := b.wagers[i], WagerRuns.Try(b.wagers[i], e).value;
      if before.status.HoldsEscrow() && !after.status.HoldsEscrow() then
        var t := SettlementOf(txnId, after, e.at);
        if t.None? then b else Book(b.wagers[i := after], b.txns + [t.value], b.grants)
      else b.(wagers := b.wagers[i := after])
  }

  function Adjusted(b: Book, txnId: string, from: Account, to: Account, amount: Int64, wagerId: string, at: Time): Book {
    var t := AdjustmentOf(txnId, from, to, amount, wagerId, at);
    if t.None? then b else b.(txns := b.txns + [t.value])
  }

  function Step(b: Book, op: Op): Book
    requires OpOk(op)
  {
    match op
    case GrantTo(txnId, user, amount, at) => Granted(b, txnId, user, amount, at)
    case Place(txnId, terms) => PlacedIn(b, txnId, terms)
    case Advance(txnId, i, e) => Advanced(b, txnId, i, e)
    case Adjust(txnId, from, to, amount, wagerId, at) => Adjusted(b, txnId, from, to, amount, wagerId, at)
  }

  function Run(b: Book, ops: seq<Op>): Book
    requires forall i | 0 <= i < |ops| :: OpOk(ops[i])
  {
    if ops == [] then b else Step(Run(b, ops[..|ops| - 1]), ops[|ops| - 1])
  }

  /** Every transaction, or only those that name one wager. */
  datatype Scope = Everything | OneWager(id: string) {
    predicate Covers(wagerId: string) { Everything? || id == wagerId }
  }

  /** A balance with manual adjustments left out. */
  ghost function Booked(a: Account, scope: Scope, txns: seq<Transaction>): int {
    if txns == [] then 0
    else Booked(a, scope, txns[..|txns| - 1]) + Effect(a, scope, txns[|txns| - 1])
  }

  ghost function Effect(a: Account, scope: Scope, t: Transaction): int {
    if t.kind.Adjustment? || !scope.Covers(t.wagerId) then 0 else EntryNet(a, t.entries)
  }

  lemma BookedSnoc(a: Account, scope: Scope, txns: seq<Transaction>, t: Transaction)
    ensures Booked(a, scope, txns + [t]) == Booked(a, scope, txns) + Effect(a, scope, t)
  {
    assert (txns + [t])[..|txns|] == txns;
  }

  /** With nothing adjusted this is the ledger's own balance. */
  lemma {:induction false} BookedIsNet(a: Account, txns: seq<Transaction>)
    requires forall i | 0 <= i < |txns| :: !txns[i].kind.Adjustment?
    ensures Booked(a, Everything, txns) == Net(a, txns)
  {
    if txns != [] {
      BookedIsNet(a, txns[..|txns| - 1]);
    }
  }

  function HeldBy(user: string, scope: Scope, w: Wager): int {
    if w.userId == user && scope.Covers(w.id) && w.status.HoldsEscrow() then w.stake else 0
  }

  function HeldStakes(user: string, scope: Scope, wagers: seq<Wager>): (r: seq<int>)
    ensures |r| == |wagers|
  {
    seq(|wagers|, i requires 0 <= i < |wagers| => HeldBy(user, scope, wagers[i]))
  }

  /** The profit or loss of a closed wager, to its owner; zero while it runs. */
  function ReturnTo(user: string, w: Wager): int { if w.userId == user then w.netReturn else 0 }

  function ReturnsTo(user: string, wagers: seq<Wager>): (r: seq<int>)
    ensures |r| == |wagers|
  {
    seq(|wagers|, i requires 0 <= i < |wagers| => ReturnTo(user, wagers[i]))
  }

  function NetReturns(wagers: seq<Wager>): (r: seq<int>)
    ensures |r| == |wagers|
  {
    seq(|wagers|, i requires 0 <= i < |wagers| => wagers[i].netReturn)
  }

  function GrantAmounts(grants: seq<(string, Int64)>): (r: seq<int>)
    ensures |r| == |grants|
  {
    seq(|grants|, i requires 0 <= i < |grants| => grants[i].1)
  }

  function GrantsTo(user: string, grants: seq<(string, Int64)>): (r: seq<int>)
    ensures |r| == |grants|
  {
    seq(|grants|, i requires 0 <= i < |grants| => if grants[i].0 == user then grants[i].1 else 0)
  }

  function Cash(user: string): Account { Account(UserCash, user) }

  function Escrow(user: string): Account { Account(UserEscrow, user) }

  ghost predicate Valid(b: Book) {
    (forall i | 0 <= i < |b.wagers| :: b.wagers[i].Inv()) && forall i | 0 <= i < |b.txns| :: b.txns[i].Constructed()
  }

  /** Escrow is the stakes still held, per user and per wager. */
  ghost predicate EscrowMatches(b: Book, user: string, scope: Scope) {
    Booked(Escrow(user), scope, b.txns) == Sum(HeldStakes(user, scope, b.wagers))
  }

  ghost predicate IssuanceMatches(b: Book) {
    Booked(ISSUANCE, Everything, b.txns) == 0 - Sum(GrantAmounts(b.grants))
  }

  /** What the wagers say the house has lost, less what the ledger says it has. */
  ghost function HouseGap(b: Book): int {
    Sum(NetReturns(b.wagers)) + Booked(HOUSE, Everything, b.txns)
  }

  /** What a user's cash should be, less what the ledger says it is. */
  ghost function CashGap(b: Book, user: string): int {
    Sum(GrantsTo(user, b.grants)) + Sum(ReturnsTo(user, b.wagers)) - Sum(HeldStakes(user, Everything, b.wagers))
    - Booked(Cash(user), Everything, b.txns)
  }

  /** How much a transition moves the recorded return of a wager that had already closed. */
  function Rewritten(w: Wager, e: WagerRuns.Event): int {
    if w.status.IsTerminal() then WagerRuns.Apply(w, e).returned - w.returned else 0
  }

  /** Everything the five equations read changes in one place: a wager appended or replaced, a transaction appended. */
  lemma WagerReplaced(user: string, scope: Scope, wagers: seq<Wager>, i: nat, w: Wager)
    requires i < |wagers|
    ensures Sum(HeldStakes(user, scope, wagers[i := w]))
         == Sum(HeldStakes(user, scope, wagers)) - HeldBy(user, scope, wagers[i]) + HeldBy(user, scope, w)
    ensures Sum(ReturnsTo(user, wagers[i := w]))
         == Sum(ReturnsTo(user, wagers)) - ReturnTo(user, wagers[i]) + ReturnTo(user, w)
    ensures Sum(NetReturns(wagers[i := w])) == Sum(NetReturns(wagers)) - wagers[i].netReturn + w.netReturn
  {
    SumUpdate(HeldStakes(user, scope, wagers), i, HeldBy(user, scope, w));
    assert HeldStakes(user, scope, wagers[i := w]) == HeldStakes(user, scope, wagers)[i := HeldBy(user, scope, w)];
    SumUpdate(ReturnsTo(user, wagers), i, ReturnTo(user, w));
    assert ReturnsTo(user, wagers[i := w]) == ReturnsTo(user, wagers)[i := ReturnTo(user, w)];
    SumUpdate(NetReturns(wagers), i, w.netReturn);
    assert NetReturns(wagers[i := w]) == NetReturns(wagers)[i := w.netReturn as int];
  }

  lemma WagerAppended(user: string, scope: Scope, wagers: seq<Wager>, w: Wager)
    ensures Sum(HeldStakes(user, scope, wagers + [w])) == Sum(HeldStakes(user, scope, wagers)) + HeldBy(user, scope, w)
    ensures Sum(ReturnsTo(user, wagers + [w])) == Sum(ReturnsTo(user, wagers)) + ReturnTo(user, w)
    ensures Sum(NetReturns(wagers + [w])) == Sum(NetReturns(wagers)) + w.netReturn
  {
    SumSnoc(HeldStakes(user, scope, wagers), HeldBy(user, scope, w));
    assert HeldStakes(user, scope, wagers + [w]) == HeldStakes(user, scope, wagers) + [HeldBy(user, scope, w)];
    SumSnoc(ReturnsTo(user, wagers), ReturnTo(user, w));
    assert ReturnsTo(user, wagers + [w]) == ReturnsTo(user, wagers) + [ReturnTo(user, w)];
    SumSnoc(NetReturns(wagers), w.netReturn);
    assert NetReturns(wagers + [w]) == NetReturns(wagers) + [w.netReturn as int];
  }

  lemma GrantLogged(user: string, grants: seq<(string, Int64)>, to: string, amount: Int64)
    ensures Sum(GrantAmounts(grants + [(to, amount)])) == Sum(GrantAmounts(grants)) + amount
    ensures Sum(GrantsTo(user, grants + [(to, amount)])) == Sum(GrantsTo(user, grants)) + if to == user then amount else 0
  {
    SumSnoc(GrantAmounts(grants), amount);
    assert GrantAmounts(grants + [(to, amount)]) == GrantAmounts(grants) + [amount as int];
    SumSnoc(GrantsTo(user, grants), if to == user then amount else 0);
    assert GrantsTo(user, grants + [(to, amount)]) == GrantsTo(user, grants) + [if to == user then amount as int else 0];
  }

  /** What a step does to each equation, for one user and one scope. */
  ghost predicate StepMatches(b: Book, c: Book, user: string, scope: Scope, shift: int, shiftFor: int) {
    && Booked(Escrow(user), scope, c.txns) - Booked(Escrow(user), scope, b.txns)
       == Sum(HeldStakes(user, scope, c.wagers)) - Sum(HeldStakes(user, scope, b.wagers))
    && Booked(ISSUANCE, Everything, c.txns) - Booked(ISSUANCE, Everything, b.txns)
       == Sum(GrantAmounts(b.grants)) - Sum(GrantAmounts(c.grants))
    && HouseGap(c) == HouseGap(b) + shift
    && CashGap(c, user) == CashGap(b, user) + shiftFor
  }

  lemma PostedEffects(user: string, scope: Scope, txns: seq<Transaction>, t: Transaction)
    ensures Booked(Escrow(user), scope, txns + [t]) == Booked(Escrow(user), scope, txns) + Effect(Escrow(user), scope, t)
    ensures Booked(ISSUANCE, Everything, txns + [t]) == Booked(ISSUANCE, Everything, txns) + Effect(ISSUANCE, Everything, t)
    ensures Booked(HOUSE, Everything, txns + [t]) == Booked(HOUSE, Everything, txns) + Effect(HOUSE, Everything, t)
    ensures Booked(Cash(user), Everything, txns + [t]) == Booked(Cash(user), Everything, txns) + Effect(Cash(user), Everything, t)
  {
    BookedSnoc(Escrow(user), scope, txns, t);
    BookedSnoc(ISSUANCE, Everything, txns, t);
    BookedSnoc(HOUSE, Everything, txns, t);
    BookedSnoc(Cash(user), Everything, txns, t);
  }

  lemma GrantEffects(txnId: string, to: string, amount: Int64, at: Time, user: string, scope: Scope)
    requires GrantOf(txnId, to, amount, at).Some?
    ensures var t := GrantOf(txnId, to, amount, at).value;
            && Effect(Escrow(user), scope, t) == Effect(HOUSE, Everything, t) == 0
            && Effect(ISSUANCE, Everything, t) == 0 - amount
            && Effect(Cash(user), Everything, t) == if to == user then amount else 0
  {
    GrantPosts(txnId, to, amount, at);
  }

  lemma GrantStep(b: Book, txnId: string, to: string, amount: Int64, at: Time, user: string, scope: Scope)
    ensures StepMatches(b, Granted(b, txnId, to, amount, at), user, scope, 0, 0)
  {
    var t := GrantOf(txnId, to, amount, at);
    if t.Some? {
      GrantEffects(txnId, to, amount, at, user, scope);
      PostedEffects(user, scope, b.txns, t.value);
      GrantLogged(user, b.grants, to, amount);
    }
  }

  lemma AdjustStep(b: Book, t: Transaction, user: string, scope: Scope)
    requires t.kind.Adjustment?
    ensures StepMatches(b, b.(txns := b.txns + [t]), user, scope, 0, 0)
  {
    PostedEffects(user, scope, b.txns, t);
  }

  lemma StakeEffects(txnId: string, w: Wager, at: Time, user: string, scope: Scope)
    requires w.Inv() && w.status.Placed? && StakeOf(txnId, w, at).Some?
    ensures var t := StakeOf(txnId, w, at).value;
            && Effect(Escrow(user), scope, t) == HeldBy(user, scope, w)
            && Effect(ISSUANCE, Everything, t) == Effect(HOUSE, Everything, t) == 0
            && Effect(Cash(user), Everything, t) == 0 - HeldBy(user, Everything, w)
            && w.netReturn == 0
  {
    StakePosts(txnId, w, at);
  }

  lemma PlaceStep(b: Book, txnId: string, w: Wager, at: Time, user: string, scope: Scope)
    requires w.Inv() && w.status.Placed? && StakeOf(txnId, w, at).Some?
    ensures var t := StakeOf(txnId, w, at).value;
            StepMatches(b, Book(b.wagers + [w], b.txns + [t], b.grants), user, scope, 0, 0)
  {
    StakeEffects(txnId, w, at, user, scope);
    PostedEffects(user, scope, b.txns, StakeOf(txnId, w, at).value);
    WagerAppended(user, scope, b.wagers, w);
    WagerAppended(user, Everything, b.wagers, w);
  }

  lemma SettlementEffects(txnId: string, w: Wager, at: Time, user: string, scope: Scope)
    requires w.Inv() && SettlementOf(txnId, w, at).Some?
    ensures var t := SettlementOf(txnId, w, at).value;
            && Effect(Escrow(user), scope, t) == (if w.userId == user && scope.Covers(w.id) then 0 - w.stake else 0)
            && Effect(ISSUANCE, Everything, t) == 0
            && Effect(HOUSE, Everything, t) == 0 - w.netReturn
            && Effect(Cash(user), Everything, t) == if w.userId == user then w.returned else 0
  {
    SettlementPosts(txnId, w, at);
  }

  lemma SettleStep(b: Book, t: Transaction, i: nat, after: Wager, user: string, scope: Scope)
    requires i < |b.wagers| && b.wagers[i].status.HoldsEscrow() && b.wagers[i].netReturn == 0
    requires after.id == b.wagers[i].id && after.userId == b.wagers[i].userId && after.stake == b.wagers[i].stake
    requires after.netReturn == after.returned - after.stake && !after.status.HoldsEscrow()
    requires Effect(Escrow(user), scope, t) == (if after.userId == user && scope.Covers(after.id) then 0 - after.stake else 0)
    requires Effect(ISSUANCE, Everything, t) == 0 && Effect(HOUSE, Everything, t) == 0 - after.netReturn
    requires Effect(Cash(user), Everything, t) == if after.userId == user then after.returned else 0
    ensures StepMatches(b, Book(b.wagers[i := after], b.txns + [t], b.grants), user, scope, 0, 0)
  {
    hide Booked, Sum, Effect;
    PostedEffects(user, scope, b.txns, t);
    WagerReplaced(user, scope, b.wagers, i, after);
    WagerReplaced(user, Everything, b.wagers, i, after);
  }

  /** A transition that posts nothing: the status class stays, so only a rewritten return can show. */
  lemma QuietStep(b: Book, i: nat, after: Wager, user: string, scope: Scope)
    requires i < |b.wagers| && b.wagers[i].Inv() && after.Inv()
    requires b.wagers[i].status.HoldsEscrow() == after.status.HoldsEscrow()
    requires after.id == b.wagers[i].id && after.userId == b.wagers[i].userId && after.stake == b.wagers[i].stake
    ensures var shift := after.returned - b.wagers[i].returned;
            StepMatches(b, b.(wagers := b.wagers[i := after]), user, scope, shift, if after.userId == user then shift else 0)
  {
    WagerReplaced(user, scope, b.wagers, i, after);
    WagerReplaced(user, Everything, b.wagers, i, after);
  }

  function Shift(b: Book, op: Op): int {
    if op.Advance? && op.wager < |b.wagers| then Rewritten(b.wagers[op.wager], op.event) else 0
  }

  function ShiftFor(b: Book, op: Op, user: string): int {
    if op.Advance? && op.wager < |b.wagers| && b.wagers[op.wager].userId == user then Shift(b, op) else 0
  }

  /** What a transition leaves alone, and what it does to the recorded return. */
  lemma Transition(w: Wager, e: WagerRuns.Event)
    requires w.Inv() && WagerRuns.Try(w, e).Some?
    ensures var v := WagerRuns.Try(w, e).value;
            && v.Inv() && v.id == w.id && v.userId == w.userId && v.stake == w.stake
            && (w.status.HoldsEscrow() ==> w.netReturn == w.returned == Rewritten(w, e) == 0)
            && (w.status.HoldsEscrow() && v.status.HoldsEscrow() ==> v.returned == 0)
            && (!v.status.HoldsEscrow() ==> v.netReturn == v.returned - v.stake)
            && (!w.status.HoldsEscrow() ==> !v.status.HoldsEscrow() && v.returned - w.returned == Rewritten(w, e))
  {
    WagerRuns.StepKeeps(w, e);
    var v := WagerRuns.Apply(w, e);
    assert v.Terms().id == w.Terms().id && v.Terms().userId == w.Terms().userId && v.Terms().stake == w.Terms().stake;
    if w.status.IsTerminal() {
      WagerRuns.TerminalStep(w, e);
    }
  }

  lemma AdvanceStep(b: Book, txnId: string, i: nat, e: WagerRuns.Event, user: string, scope: Scope)
    requires i < |b.wagers| && b.wagers[i].Inv()
    ensures var shift := Rewritten(b.wagers[i], e);
            StepMatches(b, Advanced(b, txnId, i, e), user, scope, shift, if b.wagers[i].userId == user then shift else 0)
  {
    hide WagerRuns.Try, Booked, Sum, Effect, Wager.Inv;
    if WagerRuns.Try(b.wagers[i], e).Some? {
      var before, after := b.wagers[i], WagerRuns.Try(b.wagers[i], e).value;
      Transition(before, e);
      if before.status.HoldsEscrow() && !after.status.HoldsEscrow() {
        var t := SettlementOf(txnId, after, e.at);
        if t.Some? {
          SettlementEffects(txnId, after, e.at, user, scope);
          SettleStep(b, t.value, i, after, user, scope);
        }
      } else {
        QuietStep(b, i, after, user, scope);
      }
    }
  }

  lemma OpStep(b: Book, op: Op, user: string, scope: Scope)
    requires Valid(b) && OpOk(op)
    ensures StepMatches(b, Step(b, op), user, scope, Shift(b, op), ShiftFor(b, op, user))
  {
    hide GrantOf, StakeOf, SettlementOf, NewWager, Booked, Sum, WagerRuns.Try, WagerRuns.Apply;
    match op
    case GrantTo(txnId, to, amount, at) => GrantStep(b, txnId, to, amount, at, user, scope);
    case Place(txnId, terms) =>
      var w := NewWager(terms);
      if w.Some? && StakeOf(txnId, w.value, terms.placedAt).Some? {
        PlaceStep(b, txnId, w.value, terms.placedAt, user, scope);
      }
    case Advance(txnId, i, e) =>
      if i < |b.wagers| {
        AdvanceStep(b, txnId, i, e, user, scope);
      }
    case Adjust(txnId, from, to, amount, wagerId, at) =>
      var t := AdjustmentOf(txnId, from, to, amount, wagerId, at);
      if t.Some? {
        AdjustStep(b, t.value, user, scope);
      }
  }

  /** Every wager in the book stays a valid ticket and every transaction a balanced one. */
  lemma OpKeepsValid(b: Book, op: Op)
    requires Valid(b) && OpOk(op)
    ensures Valid(Step(b, op))
  {
    hide GrantOf, StakeOf, SettlementOf, AdjustmentOf, NewWager, WagerRuns.Try, EntryNet;
    match op
    case GrantTo(txnId, to, amount, at) =>
      GrantPosts(txnId, to, amount, at);
    case Place(txnId, terms) =>
      var w := NewWager(terms);
      if w.Some? {
        StakePosts(txnId, w.value, terms.placedAt);
      }
    case Advance(txnId, i, e) =>
      if i < |b.wagers| && WagerRuns.Try(b.wagers[i], e).Some? {
        Transition(b.wagers[i], e);
        SettlementPosts(txnId, WagerRuns.Try(b.wagers[i], e).value, e.at);
      }
    case Adjust(txnId, from, to, amount, wagerId, at) =>
      AdjustmentPosts(txnId, from, to, amount, wagerId, at);
  }

  /** One transaction was posted, of this kind, under this identifier, and the others are still there. */
  ghost predicate Posted(b: Book, c: Book, id: string, kind: EntryKind, wagerId: string, at: Time) {
    |c.txns| == |b.txns| + 1 && c.txns[..|b.txns|] == b.txns && Records(c.txns[|b.txns|], id, kind, wagerId, at)
  }

  /**
   * When each operation takes effect, and what it then leaves behind. A refused one
   * leaves the book as it was; a wager closes together with its settlement or not at all.
   */
  lemma OpTakesEffect(b: Book, op: Op)
    requires Valid(b) && OpOk(op)
    ensures var c := Step(b, op);
            match op
            case GrantTo(id, user, amount, at) =>
              if ValidId(id) && ValidId(user) && 0 < amount <= MAX_SAFE && at != ZERO_TIME
              then c.wagers == b.wagers && c.grants == b.grants + [(user, amount)] && Posted(b, c, id, Grant, "", at)
              else c == b
            case Place(id, terms) =>
              if ValidId(id) && NewWager(terms).Some?
              then c.wagers == b.wagers + [NewWager(terms).value] && c.grants == b.grants
                   && Posted(b, c, id, Stake, terms.id, terms.placedAt)
              else c == b
            case Advance(id, i, e) =>
              if i >= |b.wagers| || WagerRuns.Try(b.wagers[i], e).None? then c == b
              else
                var w, v := b.wagers[i], WagerRuns.Try(b.wagers[i], e).value;
                if (w.status.Placed? || w.status.Open?) && !(v.status.Placed? || v.status.Open?) then
                  if ValidId(id) then c.wagers == b.wagers[i := v] && c.grants == b.grants
                                      && Posted(b, c, id, ClosingKind(v.status), w.id, e.at)
                  else c == b
                else c == Book(b.wagers[i := v], b.txns, b.grants)
            case Adjust(id, from, to, amount, wagerId, at) =>
              if && ValidId(id) && !from.IsZero() && !to.IsZero() && from != to && 0 < amount <= MAX_SAFE
                 && (wagerId != "" ==> ValidId(wagerId)) && at != ZERO_TIME
              then c.wagers == b.wagers && c.grants == b.grants && Posted(b, c, id, Adjustment, wagerId, at)
              else c == b
  {
    hide GrantOf, StakeOf, SettlementOf, AdjustmentOf, NewWager, WagerRuns.Try, EntryNet, Wager.Inv, Transaction.Constructed;
    match op
    case GrantTo(id, user, amount, at) => GrantPosts(id, user, amount, at);
    case Place(id, terms) =>
      var w := NewWager(terms);
      if w.Some? {
        StakePosts(id, w.value, terms.placedAt);
        PlacedAsAsked(terms);
      }
    case Advance(id, i, e) =>
      if i < |b.wagers| && WagerRuns.Try(b.wagers[i], e).Some? {
        Transition(b.wagers[i], e);
        ClosedBy(b.wagers[i], e);
        SettlementPosts(id, WagerRuns.Try(b.wagers[i], e).value, e.at);
      }
    case Adjust(id, from, to, amount, wagerId, at) => AdjustmentPosts(id, from, to, amount, wagerId, at);
  }

  lemma PlacedAsAsked(terms: WagerParams)
    requires forall i | 0 <= i < |terms.legs| :: terms.legs[i].IsZero() || terms.legs[i].Constructed()
    requires NewWager(terms).Some?
    ensures var w := NewWager(terms).value; w.id == terms.id && terms.placedAt != ZERO_TIME
  {
    hide RoundReal, LegSetOk, TeaserOk;
    assert NewWager(terms).value.Terms().id == terms.id;
  }

  /** A wager that an event leaves outside escrow is closed, at that event's instant. */
  lemma ClosedBy(w: Wager, e: WagerRuns.Event)
    requires w.Inv() && WagerRuns.Try(w, e).Some?
    ensures e.at != ZERO_TIME
    ensures var v := WagerRuns.Try(w, e).value; v.hasReturned <==> !(v.status.Placed? || v.status.Open?)
  {
    WagerRuns.StampedAt(w, e);
    WagerRuns.StepKeeps(w, e);
    hide WagerRuns.Try, RoundReal, LegSetOk, TeaserOk, Accepts;
  }

  ghost predicate OpsOk(ops: seq<Op>) { forall i | 0 <= i < |ops| :: OpOk(ops[i]) }

  /** How far the rewritten returns of a run add up to, over the whole book and for one user. */
  ghost function TotalShift(ops: seq<Op>): int
    requires OpsOk(ops)
  {
    if ops == [] then 0
    else TotalShift(ops[..|ops| - 1]) + Shift(Run(EMPTY, ops[..|ops| - 1]), ops[|ops| - 1])
  }

  ghost function TotalShiftFor(ops: seq<Op>, user: string): int
    requires OpsOk(ops)
  {
    if ops == [] then 0
    else TotalShiftFor(ops[..|ops| - 1], user) + ShiftFor(Run(EMPTY, ops[..|ops| - 1]), ops[|ops| - 1], user)
  }

  /**
   * Over every run, whatever the order of operations: a user's escrow is the stakes
   * of their wagers that still hold escrow, in all and wager by wager; issuance is
   * minus the grants; the house holds minus the net returns of closed wagers and
   * cash is grants plus net returns minus stakes held, each up to the returns that
   * were rewritten after closing. Manual adjustments are left out of all five.
   */
  lemma {:induction false} BookEquations(ops: seq<Op>, user: string, scope: Scope)
    requires OpsOk(ops)
    ensures var b := Run(EMPTY, ops);
            && Valid(b)
            && EscrowMatches(b, user, scope) && IssuanceMatches(b)
            && HouseGap(b) == TotalShift(ops) && CashGap(b, user) == TotalShiftFor(ops, user)
  {
    if ops != [] {
      var b, op := Run(EMPTY, ops[..|ops| - 1]), ops[|ops| - 1];
      BookEquations(ops[..|ops| - 1], user, scope);
      OpKeepsValid(b, op);
      OpStep(b, op, user, scope);
    }
  }

  /** An operation that settles a closed wager again at another amount. */
  predicate OpRewrites(b: Book, op: Op) {
    && op.Advance? && op.wager < |b.wagers| && b.wagers[op.wager].status.IsTerminal()
    && WagerRuns.Rewrites(b.wagers[op.wager], op.event)
  }

  /** An operation keeps the house equation exactly when it is not one of those. */
  lemma HouseKeptExactly(b: Book, op: Op)
    requires Valid(b) && OpOk(op)
    ensures HouseGap(Step(b, op)) == HouseGap(b) <==> !OpRewrites(b, op)
  {
    OpStep(b, op, "", Everything);
    if op.Advance? && op.wager < |b.wagers| && b.wagers[op.wager].status.IsTerminal() {
      WagerRuns.ReturnRewrittenExactly(b.wagers[op.wager], op.event);
    }
  }

  ghost predicate NothingRewritten(ops: seq<Op>)
    requires OpsOk(ops)
  {
    ops == []
    || (&& NothingRewritten(ops[..|ops| - 1])
        && !OpRewrites(Run(EMPTY, ops[..|ops| - 1]), ops[|ops| - 1]))
  }

  lemma {:induction false} NoShift(ops: seq<Op>, user: string)
    requires OpsOk(ops) && NothingRewritten(ops)
    ensures TotalShift(ops) == 0 && TotalShiftFor(ops, user) == 0
  {
    if ops != [] {
      var b, op := Run(EMPTY, ops[..|ops| - 1]), ops[|ops| - 1];
      NoShift(ops[..|ops| - 1], user);
      BookEquations(ops[..|ops| - 1], user, Everything);
      if op.Advance? && op.wager < |b.wagers| && b.wagers[op.wager].status.IsTerminal() {
        WagerRuns.ReturnRewrittenExactly(b.wagers[op.wager], op.event);
      }
    }
  }

  /** Without adjustments and without rewritten returns, the ledger's own balances satisfy all the equations. */
  lemma LedgerEquations(ops: seq<Op>, user: string)
    requires OpsOk(ops) && NothingRewritten(ops)
    requires forall i | 0 <= i < |ops| :: !ops[i].Adjust?
    ensures var b := Run(EMPTY, ops);
            && Net(Escrow(user), b.txns) == Sum(HeldStakes(user, Everything, b.wagers))
            && Net(ISSUANCE, b.txns) == 0 - Sum(GrantAmounts(b.grants))
            && Net(HOUSE, b.txns) == 0 - Sum(NetReturns(b.wagers))
            && Net(Cash(user), b.txns) == Sum(GrantsTo(user, b.grants)) + Sum(ReturnsTo(user, b.wagers))
                                          - Sum(HeldStakes(user, Everything, b.wagers))
  {
    var b := Run(EMPTY, ops);
    BookEquations(ops, user, Everything);
    NoShift(ops, user);
    NothingAdjusted(ops);
    BookedIsNet(Escrow(user), b.txns);
    BookedIsNet(ISSUANCE, b.txns);
    BookedIsNet(HOUSE, b.txns);
    BookedIsNet(Cash(user), b.txns);
  }

  lemma StepKinds(b: Book, op: Op)
    requires OpOk(op) && !op.Adjust?
    ensures |b.txns| <= |Step(b, op).txns| <= |b.txns| + 1 && b.txns <= Step(b, op).txns
    ensures forall i | |b.txns| <= i < |Step(b, op).txns| :: !Step(b, op).txns[i].kind.Adjustment?
  {
    hide NewWager, NewAccount, TransferEntries, SettlementEntries, Admits, WagerRuns.Try;
  }

  lemma {:induction false} NothingAdjusted(ops: seq<Op>)
    requires OpsOk(ops) && forall i | 0 <= i < |ops| :: !ops[i].Adjust?
    ensures forall i | 0 <= i < |Run(EMPTY, ops).txns| :: !Run(EMPTY, ops).txns[i].kind.Adjustment?
  {
    hide Step;
    if ops != [] {
      NothingAdjusted(ops[..|ops| - 1]);
      StepKinds(Run(EMPTY, ops[..|ops| - 1]), ops[|ops| - 1]);
    }
  }

  /** In every run, adjustments included, the ledger passes its audit and its balances sum to zero. */
  lemma BookBalances(ops: seq<Op>)
    requires OpsOk(ops)
    ensures var entries := AllEntries(Run(EMPTY, ops).txns);
            PrefixSafe(Amounts(entries)) && Sum(Amounts(entries)) == 0 && MapTotal(BalanceMap(entries)) == 0
  {
    BookEquations(ops, "", Everything);
    ConstructedBalance(Run(EMPTY, ops).txns);
    BalancesSumToZero(Run(EMPTY, ops).txns);
  }

  /** Accounts, too, only come out of their constructor. */
  predicate AccountsOk(op: Op) {
    op.Adjust? ==> (op.from.IsZero() || op.from.Constructed()) && (op.to.IsZero() || op.to.Constructed())
  }

  ghost predicate EntriesMinted(txns: seq<Transaction>) { forall i | 0 <= i < |txns| :: AllMinted(txns[i].entries) }

  lemma OpMints(b: Book, op: Op)
    requires OpOk(op) && AccountsOk(op) && EntriesMinted(b.txns)
    ensures EntriesMinted(Step(b, op).txns)
  {
    hide AllMinted, GrantOf, StakeOf, SettlementOf, AdjustmentOf, NewWager, WagerRuns.Try;
    match op
    case GrantTo(txnId, to, amount, at) =>
      if GrantOf(txnId, to, amount, at).Some? {
        GrantMinted(txnId, to, amount, at);
      }
    case Place(txnId, terms) =>
      var w := NewWager(terms);
      if w.Some? && StakeOf(txnId, w.value, terms.placedAt).Some? {
        StakeMinted(txnId, w.value, terms.placedAt);
      }
    case Advance(txnId, i, e) =>
      if i < |b.wagers| && WagerRuns.Try(b.wagers[i], e).Some? {
        var after := WagerRuns.Try(b.wagers[i], e).value;
        if SettlementOf(txnId, after, e.at).Some? {
          SettlementMinted(txnId, after, e.at);
        }
      }
    case Adjust(txnId, from, to, amount, wagerId, at) =>
      if AdjustmentOf(txnId, from, to, amount, wagerId, at).Some? {
        AdjustmentMinted(txnId, from, to, amount, wagerId, at);
      }
  }

  /** In every run each posted entry, on its account, is one the two constructors give: none is written around them. */
  lemma {:induction false} EveryEntryMinted(ops: seq<Op>)
    requires OpsOk(ops) && forall i | 0 <= i < |ops| :: AccountsOk(ops[i])
    ensures EntriesMinted(Run(EMPTY, ops).txns)
  {
    hide Step, AllMinted;
    if ops != [] {
      EveryEntryMinted(ops[..|ops| - 1]);
      OpMints(Run(EMPTY, ops[..|ops| - 1]), ops[|ops| - 1]);
    }
  }

  lemma RunSnoc(ops: seq<Op>, op: Op)
    requires OpsOk(ops) && OpOk(op)
    ensures OpsOk(ops + [op]) && Run(EMPTY, ops + [op]) == Step(Run(EMPTY, ops), op)
    ensures TotalShift(ops + [op]) == TotalShift(ops) + Shift(Run(EMPTY, ops), op)
  {
    assert (ops + [op])[..|ops|] == ops;
  }

  /** A wager placed, settled as won at 1.50 and then, on the same status, at 2.00. */
  const PLACE := Place("stake", WagerRuns.SampleTerms())
  const WIN := Advance("payout", 0, WagerRuns.SettleTicket(Won, 150, 1))
  const WIN_AGAIN := Advance("again", 0, WagerRuns.SettleTicket(Won, 200, 2))

  lemma SamplePlaced()
    ensures OpOk(PLACE)
    ensures Step(EMPTY, PLACE).wagers == [NewWager(WagerRuns.SampleTerms()).value]
  {
    WagerRuns.SampleAccepted();
    var w := NewWager(WagerRuns.SampleTerms()).value;
    StakePosts("stake", w, WagerRuns.SampleTerms().placedAt);
  }

  lemma SampleWon(b: Book)
    requires b.wagers == [NewWager(WagerRuns.SampleTerms()).value] && WagerRuns.SampleTerms() == PLACE.terms
    ensures Accepts(WagerRuns.SampleTerms())
    ensures Step(b, WIN).wagers == [WagerRuns.Apply(NewWager(WagerRuns.SampleTerms()).value, WIN.event)]
    ensures Shift(b, WIN) == 0
  {
    hide RoundReal, LegSetOk, TeaserOk, Accepts, SettlementOf, EntryNet, Transaction.Constructed, Records, Wager.TicketOk;
    WagerRuns.SampleAccepted();
    var w := NewWager(WagerRuns.SampleTerms()).value;
    WagerRuns.SettledTwiceAtDifferentAmounts();
    WagerRuns.StepKeeps(w, WIN.event);
    SettlementPosts("payout", WagerRuns.Apply(w, WIN.event), 1);
  }

  lemma RunFromEmpty()
    ensures OpsOk([]) && Run(EMPTY, []) == EMPTY && TotalShift([]) == 0 && Shift(EMPTY, PLACE) == 0
  {}

  lemma SampleWonAgain(b: Book)
    requires Accepts(WagerRuns.SampleTerms())
    requires b.wagers == [WagerRuns.Apply(NewWager(WagerRuns.SampleTerms()).value, WIN.event)]
    ensures Shift(b, WIN_AGAIN) == 50
  {
    WagerRuns.SettledTwiceAtDifferentAmounts();
  }

  /** After this run the house account is 0.50 away from minus the net returns. */
  lemma RewrittenReturnOpensGap()
    ensures OpsOk([PLACE, WIN, WIN_AGAIN])
    ensures HouseGap(Run(EMPTY, [PLACE, WIN, WIN_AGAIN])) == 50
  {
    hide NewWager, Accepts, Step, Booked, HouseGap, Valid, EscrowMatches, IssuanceMatches, CashGap, WagerRuns.Apply, WagerRuns.SampleTerms, Run, TotalShift;
    SamplePlaced();
    var b1 := Step(EMPTY, PLACE);
    SampleWon(b1);
    SampleWonAgain(Step(b1, WIN));
    RunFromEmpty();
    RunSnoc([], PLACE);
    RunSnoc([] + [PLACE], WIN);
    RunSnoc([] + [PLACE] + [WIN], WIN_AGAIN);
    assert [] + [PLACE] + [WIN] + [WIN_AGAIN] == [PLACE, WIN, WIN_AGAIN];
    BookEquations([PLACE, WIN, WIN_AGAIN], "", Everything);
  }
}
