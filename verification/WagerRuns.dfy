/** What every run of transitions keeps, and what a closed ticket can still do. */
module WagerRuns {
  import opened Prelude
  import opened Ids
  import opened Money
  import opened Legs
  import opened Wagers

  datatype Event =
    | OpenTicket(at: Time)
    | Grade(leg: string, outcome: LegStatus, at: Time)
    | SettleTicket(next: WagerStatus, amount: Int64, at: Time)
    | CashOutTicket(amount: Int64, at: Time)

  function Try(w: Wager, e: Event): Option<Wager> {
    match e
    case OpenTicket(at) => w.MarkOpen(at)
    case Grade(leg, outcome, at) => w.GradeLeg(leg, outcome, at)
    case SettleTicket(next, amount, at) => w.Settle(next, amount, at)
    case CashOutTicket(amount, at) => w.CashOut(amount, at)
  }

  /** A refused transition leaves the ticket as it was. */
  function Apply(w: Wager, e: Event): Wager {
    match Try(w, e)
    case None => w
    case Some(next) => next
  }

  function Run(w: Wager, es: seq<Event>): Wager
    decreases |es|
  {
    if es == [] then w else Run(Apply(w, es[0]), es[1..])
  }

  /** Grading one leg moves no other leg and touches no booking. */
  lemma GradedBookings(w: Wager, i: nat, graded: Leg)
    requires i < |w.legs| && graded.Booking() == w.legs[i].Booking()
    ensures w.(legs := w.legs[i := graded]).Bookings() == w.Bookings()
  {}

  lemma GradeKeeps(w: Wager, leg: string, outcome: LegStatus, at: Time)
    requires w.Inv() && w.GradeLeg(leg, outcome, at).Some?
    ensures var v := w.GradeLeg(leg, outcome, at).value; v.Inv() && v.Terms() == w.Terms() && v.payout == w.payout
  {
    var idx := FirstLeg(w.legs, leg).value;
    var graded := w.legs[idx].WithStatus(outcome, at).value;
    GradedBookings(w, idx, graded);
    assert w.legs[idx].Constructed();
  }

  lemma CloseKeeps(w: Wager, next: WagerStatus, amount: Int64, at: Time)
    requires w.Inv() && w.SettleAt(next, amount, at).Some?
    requires next.IsTerminal() && w.ReturnOk(next, amount)
    ensures var v := w.SettleAt(next, amount, at).value; v.Inv() && v.Terms() == w.Terms() && v.payout == w.payout
  {
    assert w.SettleAt(next, amount, at).value.Bookings() == w.Bookings();
  }

  lemma OpenKeeps(w: Wager, at: Time)
    requires w.Inv() && w.MarkOpen(at).Some?
    ensures var v := w.MarkOpen(at).value; v.Inv() && v.Terms() == w.Terms() && v.payout == w.payout
  {
    assert w.MarkOpen(at).value.Bookings() == w.Bookings();
  }

  /** Every transition keeps the invariant and everything the ticket was placed on. */
  lemma StepKeeps(w: Wager, e: Event)
    requires w.Inv()
    ensures Apply(w, e).Inv() && Apply(w, e).Terms() == w.Terms() && Apply(w, e).payout == w.payout
  {
    hide Accepts, RoundReal, FirstLeg;
    match e
    case OpenTicket(at) =>
      if w.MarkOpen(at).Some? {
        OpenKeeps(w, at);
      }
    case Grade(leg, outcome, at) =>
      if w.GradeLeg(leg, outcome, at).Some? {
        GradeKeeps(w, leg, outcome, at);
      }
    case SettleTicket(next, amount, at) =>
      if w.Settle(next, amount, at).Some? {
        CloseKeeps(w, next, amount, at);
      }
    case CashOutTicket(amount, at) =>
      if w.CashOut(amount, at).Some? {
        CloseKeeps(w, CashedOut, amount, at);
      }
  }

  lemma {:induction false} RunKeeps(w: Wager, es: seq<Event>)
    requires w.Inv()
    ensures Run(w, es).Inv() && Run(w, es).Terms() == w.Terms() && Run(w, es).payout == w.payout
    decreases |es|
  {
    if es != [] {
      StepKeeps(w, es[0]);
      RunKeeps(Apply(w, es[0]), es[1..]);
    }
  }

  /** Every ticket any run reaches from placement satisfies the invariant on the terms it was placed on. */
  lemma ReachableTicket(p: WagerParams, es: seq<Event>)
    requires forall i | 0 <= i < |p.legs| :: p.legs[i].IsZero() || p.legs[i].Constructed()
    requires NewWager(p).Some?
    ensures var w := Run(NewWager(p).value, es);
            w.Inv() && w.Terms() == p && w.payout == NewWager(p).value.payout
  {
    RunKeeps(NewWager(p).value, es);
  }

  /** The statuses whose return is forced by the stake, so that settling again cannot move it. */
  predicate FixedReturn(s: WagerStatus) { s.Lost? || s.Void? || s.Push? }

  lemma TerminalStep(w: Wager, e: Event)
    requires w.Inv() && w.status.IsTerminal()
    ensures Apply(w, e).status == w.status && Apply(w, e).legs == w.legs
    ensures FixedReturn(w.status) ==> Apply(w, e).returned == w.returned
  {}

  /** A closed ticket keeps its status and its legs for ever, and its return when the outcome forces it. */
  lemma {:induction false} TerminalRun(w: Wager, es: seq<Event>)
    requires w.Inv() && w.status.IsTerminal()
    ensures Run(w, es).status == w.status && Run(w, es).legs == w.legs
    ensures FixedReturn(w.status) ==> Run(w, es).returned == w.returned
    decreases |es|
  {
    if es != [] {
      StepKeeps(w, es[0]);
      TerminalStep(w, es[0]);
      TerminalRun(Apply(w, es[0]), es[1..]);
    }
  }

  /** The calls that overwrite the return of a closed ticket: the same closing status at another amount. */
  predicate Rewrites(w: Wager, e: Event) {
    match e
    case SettleTicket(next, amount, at) =>
      && next.Won? && w.status.Won? && amount != w.returned && w.stake <= amount <= w.payout
      && at != ZERO_TIME && w.updatedAt <= at
    case CashOutTicket(amount, at) =>
      && w.status.CashedOut? && amount != w.returned && 0 < amount <= w.payout
      && at != ZERO_TIME && w.updatedAt <= at
    case _ => false
  }

  /**
   * "A settled ticket cannot be re-settled at a different amount" holds of exactly
   * the calls that are not one of these: the status table lets won → won and
   * cashed out → cashed out through, and the amount is then overwritten.
   */
  lemma ReturnRewrittenExactly(w: Wager, e: Event)
    requires w.Inv() && w.status.IsTerminal()
    ensures Apply(w, e).returned != w.returned <==> Rewrites(w, e)
  {}

  /** A run on a closed ticket that avoids those calls leaves every amount alone. */
  ghost predicate NoRewrite(w: Wager, es: seq<Event>)
    decreases |es|
  {
    es == [] || (!Rewrites(w, es[0]) && NoRewrite(Apply(w, es[0]), es[1..]))
  }

  lemma {:induction false} AmountsFinal(w: Wager, es: seq<Event>)
    requires w.Inv() && w.status.IsTerminal() && NoRewrite(w, es)
    ensures Run(w, es).returned == w.returned && Run(w, es).netReturn == w.netReturn
    decreases |es|
  {
    if es != [] {
      StepKeeps(w, es[0]);
      TerminalStep(w, es[0]);
      ReturnRewrittenExactly(w, es[0]);
      AmountsFinal(Apply(w, es[0]), es[1..]);
    }
  }

  /** A straight at 2.00 on a 1.00 stake, and the two settlements that pay it 1.50 and then 2.00. */
  function SampleTerms(): WagerParams {
    var leg := Leg("leg", "event", "market", Moneyline, "home", Price("home", 2.0, None), None, LegPending, None);
    WagerParams("wager", "user", Straight, [leg], 100, 2.0, TowardZero, 0.0, "", 0)
  }

  lemma SampleAccepted()
    ensures Accepts(SampleTerms()) && NewWager(SampleTerms()).value.payout == 200
  {
    var p := SampleTerms();
    assert Product(100, 2.0) == 200.0;
    assert RoundReal(200.0, TowardZero) == 200;
    assert AbsReal(2.0 - 2.0) <= PRICE_TOLERANCE * MaxReal(AbsReal(2.0), AbsReal(2.0));
    assert p.legs[0].Constructed();
    assert NewWager(p).value.TicketOk();
  }

  lemma SettledTwiceAtDifferentAmounts()
    ensures Accepts(SampleTerms())
    ensures var w := Apply(NewWager(SampleTerms()).value, SettleTicket(Won, 150, 1));
            w.status.Won? && w.returned == 150 && Apply(w, SettleTicket(Won, 200, 2)).returned == 200
  {
    SampleAccepted();
    StepKeeps(NewWager(SampleTerms()).value, SettleTicket(Won, 150, 1));
  }

  /**
   * Which closing calls succeed, and all they record. A running ticket closes at any
   * outcome whose amount rule is met, a closed one only at the outcome it has; nothing
   * but the status, the amounts and the update instant moves.
   */
  lemma ClosingAccepts(w: Wager, next: WagerStatus, amount: Int64, at: Time)
    requires w.Inv() && (next.Won? || next.Lost? || next.Void? || next.Push? || next.CashedOut?)
    ensures var e := if next.CashedOut? then CashOutTicket(amount, at) else SettleTicket(next, amount, at);
            var r := Try(w, e);
            && (r.Some? <==>
                && (w.status.Placed? || w.status.Open? || w.status == next)
                && (match next
                    case Lost => amount == 0
                    case Void => amount == w.stake
                    case Push => amount == w.stake
                    case Won => w.stake <= amount <= w.payout
                    case _ => 0 < amount <= w.payout)
                && at != ZERO_TIME && w.updatedAt <= at)
            && (r.Some? ==>
                && r.value.status == next && r.value.returned == amount && r.value.netReturn == amount - w.stake
                && r.value.hasReturned && r.value.updatedAt == at
                && r.value.(status := w.status, returned := w.returned, netReturn := w.netReturn,
                            hasReturned := w.hasReturned, updatedAt := w.updatedAt) == w)
  {
    hide RoundReal, FirstLeg, LegSetOk, TeaserOk;
    var difference := Sub(amount, w.stake);
  }

  /** Settling is for the four graded outcomes, and opening for a running ticket, which it marks open. */
  lemma OpeningAccepts(w: Wager, next: WagerStatus, amount: Int64, at: Time)
    requires w.Inv()
    ensures !(next.Won? || next.Lost? || next.Void? || next.Push?) ==> Try(w, SettleTicket(next, amount, at)) == None
    ensures Try(w, OpenTicket(at)) ==
            if (w.status.Placed? || w.status.Open?) && at != ZERO_TIME && w.updatedAt <= at
            then Some(w.(status := Open, updatedAt := at)) else None
  {
    hide RoundReal, FirstLeg, LegSetOk, TeaserOk;
  }

  /**
   * Which gradings succeed, and all they record: the first leg of that name takes the
   * outcome asked for, its grading instant is set the first time only, and nothing
   * else moves but the ticket's update instant.
   */
  lemma GradingRecords(w: Wager, i: nat, outcome: LegStatus, at: Time)
    requires w.Inv() && i < |w.legs| && forall j | 0 <= j < i :: w.legs[j].id != w.legs[i].id
    ensures var leg := w.legs[i];
            var r := Try(w, Grade(leg.id, outcome, at));
            && (r.Some? <==>
                && (w.status.Placed? || w.status.Open?)
                && (outcome.LegPending? || outcome.LegWon? || outcome.LegLost? || outcome.LegVoid? || outcome.LegPush?)
                && (leg.status.LegPending? || leg.status == outcome)
                && at != ZERO_TIME && w.updatedAt <= at)
            && (r.Some? ==>
                var stamp := if leg.status.LegPending? && !outcome.LegPending? then Some(at) else leg.gradedAt;
                r.value == w.(legs := w.legs[i := leg.(status := outcome, gradedAt := stamp)], updatedAt := at))
  {
    hide RoundReal, LegSetOk, TeaserOk, Accepts;
    assert FirstLeg(w.legs, w.legs[i].id).value == i;
    assert w.legs[i].Constructed();
  }

  /** No grading reaches a leg the ticket does not have. */
  lemma UnknownLegRefused(w: Wager, id: string, outcome: LegStatus, at: Time)
    requires forall i | 0 <= i < |w.legs| :: w.legs[i].id != id
    ensures Try(w, Grade(id, outcome, at)) == None
  {}

  lemma GradedLegStep(w: Wager, e: Event, i: nat)
    requires w.Inv() && i < |w.legs|
    requires w.legs[i].status.IsTerminal() || exists j | 0 <= j < i :: w.legs[j].id == w.legs[i].id
    ensures |Apply(w, e).legs| == |w.legs| && Apply(w, e).legs[i] == w.legs[i]
    ensures forall j | 0 <= j < |w.legs| :: Apply(w, e).legs[j].id == w.legs[j].id
  {
    assert w.legs[i].Constructed();
    if e.Grade? && w.GradeLeg(e.leg, e.outcome, e.at).Some? {
      var k := FirstLeg(w.legs, e.leg).value;
      var graded := w.legs[k].WithStatus(e.outcome, e.at).value;
      assert graded.Booking().id == w.legs[k].Booking().id;
    }
  }

  /**
   * A graded leg never changes again. Nor does a leg that shares its identifier
   * with an earlier one, which placement does not refuse: no call ever reaches it.
   */
  lemma {:induction false} LegFinal(w: Wager, es: seq<Event>, i: nat)
    requires w.Inv() && i < |w.legs|
    requires w.legs[i].status.IsTerminal() || exists j | 0 <= j < i :: w.legs[j].id == w.legs[i].id
    ensures i < |Run(w, es).legs| && Run(w, es).legs[i] == w.legs[i]
    decreases |es|
  {
    if es != [] {
      StepKeeps(w, es[0]);
      GradedLegStep(w, es[0], i);
      LegFinal(Apply(w, es[0]), es[1..], i);
    }
  }

  /** What a call needs to reach a leg: a running ticket, an ungraded leg, and no earlier leg of its name. */
  predicate Gradable(w: Wager, i: nat)
    requires i < |w.legs|
  {
    && w.status.HoldsEscrow() && w.legs[i].status.LegPending?
    && forall j | 0 <= j < i :: w.legs[j].id != w.legs[i].id
  }

  ghost predicate Moves(w: Wager, es: seq<Event>, i: nat) {
    i < |w.legs| && (i >= |Run(w, es).legs| || Run(w, es).legs[i] != w.legs[i])
  }

  /** The grading that moves a gradable leg. */
  function GradeNow(w: Wager, i: nat): Event
    requires i < |w.legs|
  {
    Grade(w.legs[i].id, LegWon, if w.updatedAt == ZERO_TIME then w.updatedAt + 1 else w.updatedAt)
  }

  lemma GradeNowMoves(w: Wager, i: nat)
    requires w.Inv() && i < |w.legs| && Gradable(w, i)
    ensures |Apply(w, GradeNow(w, i)).legs| == |w.legs| && Apply(w, GradeNow(w, i)).legs[i] != w.legs[i]
  {
    assert FirstLeg(w.legs, w.legs[i].id).value == i;
  }

  /**
   * Some run changes a leg exactly when one grading of it would: the ticket still
   * runs, the leg is ungraded, and no earlier leg carries its identifier.
   */
  lemma LegMovesExactly(w: Wager, i: nat)
    requires w.Inv() && i < |w.legs|
    ensures (exists es :: Moves(w, es, i)) <==> Gradable(w, i)
    ensures (exists e :: Moves(w, [e], i)) <==> Gradable(w, i)
  {
    if Gradable(w, i) {
      GradeNowMoves(w, i);
      var es := [GradeNow(w, i)];
      assert es[1..] == [] && Run(w, es) == Run(Apply(w, es[0]), []);
      assert Moves(w, es, i);
    } else {
      assert w.legs[i].Constructed();
      forall es ensures !Moves(w, es, i) {
        if w.status.IsTerminal() {
          TerminalRun(w, es);
        } else {
          LegFinal(w, es, i);
        }
      }
    }
  }

  /** Placement looks at a leg's identifier only to see that there is one. */
  lemma LegIdentifiersUnchecked(p: WagerParams, j: nat, id: string)
    requires j < |p.legs| && p.legs[j].id != "" && id != ""
    ensures Accepts(p) <==> Accepts(p.(legs := p.legs[j := p.legs[j].(id := id)]))
  {
    var legs := p.legs[j := p.legs[j].(id := id)];
    assert forall k | 0 <= k < |legs| :: legs[k] == if k == j then p.legs[j].(id := id) else p.legs[k];
    assert LegSetOk(p.legs) <==> LegSetOk(legs);
    assert TeaserOk(p.kind, p.teaserPoints, p.legs) <==> TeaserOk(p.kind, p.teaserPoints, legs);
  }

  /** The same terms, with a later leg renamed after an earlier one. */
  function Renamed(p: WagerParams, i: nat, j: nat): (q: WagerParams)
    requires i < j < |p.legs|
    ensures (forall k | 0 <= k < |p.legs| :: p.legs[k].Constructed()) ==> forall k | 0 <= k < |q.legs| :: q.legs[k].Constructed()
  {
    p.(legs := p.legs[j := p.legs[j].(id := p.legs[i].id)])
  }

  /** So accepted terms with a repeated identifier are placed like the others, and no run ever grades the later leg. */
  lemma RepeatedIdentifierPlaced(p: WagerParams, i: nat, j: nat)
    requires forall k | 0 <= k < |p.legs| :: p.legs[k].Constructed()
    requires Accepts(p) && i < j < |p.legs|
    ensures var q := Renamed(p, i, j);
            && Accepts(q) && NewWager(q).Some?
            && forall es :: !Moves(NewWager(q).value, es, j)
  {
    var q := Renamed(p, i, j);
    assert !p.legs[i].IsZero() && !p.legs[j].IsZero();
    LegIdentifiersUnchecked(p, j, p.legs[i].id);
    var w := NewWager(q).value;
    assert w.Bookings()[i] == q.legs[i] && w.Bookings()[j] == q.legs[j];
    LegMovesExactly(w, j);
  }

  /** The line moved the other way by the same amount. */
  function Mirrored(leg: Leg): Leg
    requires leg.teasedLine.Some? && leg.price.line.Some?
  {
    leg.(teasedLine := Some(2.0 * leg.price.line.value - leg.teasedLine.value))
  }

  lemma MirrorTeased(leg: Leg, points: real)
    requires leg.teasedLine.Some? && leg.price.line.Some?
    ensures TeasedBy(Mirrored(leg), points) <==> TeasedBy(leg, points)
  {
    var moved := leg.teasedLine.value - leg.price.line.value;
    assert Mirrored(leg).teasedLine.value - leg.price.line.value == -moved;
    assert AbsReal(-moved) == AbsReal(moved);
  }

  /** Placement compares magnitudes only: it cannot tell a tease from its mirror image. */
  lemma TeaserIgnoresDirection(p: WagerParams, i: nat)
    requires i < |p.legs| && p.legs[i].teasedLine.Some? && p.legs[i].price.line.Some?
    ensures Accepts(p) <==> Accepts(p.(legs := p.legs[i := Mirrored(p.legs[i])]))
  {
    var legs := p.legs[i := Mirrored(p.legs[i])];
    MirrorTeased(p.legs[i], p.teaserPoints);
    hide TeasedBy;
    assert forall k | 0 <= k < |legs| :: legs[k] == if k == i then Mirrored(p.legs[i]) else p.legs[k];
    assert LegSetOk(p.legs) <==> LegSetOk(legs);
    assert TeaserOk(p.kind, p.teaserPoints, p.legs) <==> TeaserOk(p.kind, p.teaserPoints, legs) by {
      assert forall k | 0 <= k < |legs| && k != i :: legs[k] == p.legs[k];
      assert legs[i] == Mirrored(p.legs[i]);
    }
  }

  /** A leg's teased line is one that teasing the untouched leg gives. */
  predicate TeasedLawfully(leg: Leg) {
    leg.(teasedLine := None).WithTeasedLine(leg.teasedLine) == Some(leg)
  }

  /**
   * Whatever run a teaser ticket has been through, every leg is a spread or total
   * that teasing gives, as far from its booked line as the ticket was sold at; no
   * leg of another ticket is teased.
   */
  lemma TeasedLegs(p: WagerParams, es: seq<Event>, i: nat)
    requires forall k | 0 <= k < |p.legs| :: p.legs[k].IsZero() || p.legs[k].Constructed()
    requires NewWager(p).Some? && i < |Run(NewWager(p).value, es).legs|
    ensures var leg := Run(NewWager(p).value, es).legs[i];
            if p.kind.Teaser? then TeasedBy(leg, p.teaserPoints) && TeasedLawfully(leg.Booking())
            else leg.teasedLine.None?
  {
    ReachableTicket(p, es);
    var w := Run(NewWager(p).value, es);
    assert w.legs[i].Constructed() && w.Bookings()[i] == w.legs[i].Booking();
    assert TeaserOk(w.Terms().kind, w.Terms().teaserPoints, w.Terms().legs);
  }

  /** The instants of the calls a run accepts, in order. */
  function Stamps(w: Wager, es: seq<Event>): seq<Time>
    decreases |es|
  {
    if es == [] then []
    else (if Try(w, es[0]).Some? then [es[0].at] else []) + Stamps(Apply(w, es[0]), es[1..])
  }

  predicate InOrder(ts: seq<Time>) { forall i, j | 0 <= i < j < |ts| :: ts[i] <= ts[j] }

  lemma StampedAt(w: Wager, e: Event)
    requires Try(w, e).Some?
    ensures Apply(w, e).updatedAt == e.at && w.updatedAt <= e.at && e.at != ZERO_TIME
  {}

  lemma InOrderCons(x: Time, ts: seq<Time>)
    requires InOrder(ts) && ts != [] && x <= ts[0]
    ensures InOrder([x] + ts) && ([x] + ts)[|ts|] == ts[|ts| - 1]
  {}

  lemma RefusedStays(w: Wager, e: Event)
    requires Try(w, e).None?
    ensures Apply(w, e) == w
  {}

  /** Accepted calls never go back in time, and the ticket shows the instant of the last one. */
  lemma {:induction false} StampsInOrder(w: Wager, es: seq<Event>)
    ensures var ts := [w.updatedAt] + Stamps(w, es);
            && InOrder(ts) && Run(w, es).updatedAt == ts[|ts| - 1]
            && forall i | 0 <= i < |Stamps(w, es)| :: Stamps(w, es)[i] != ZERO_TIME
    decreases |es|
  {
    hide Try, Apply, InOrder;
    if es == [] {
      assert [w.updatedAt] + Stamps(w, es) == [w.updatedAt];
      OneInstant(w.updatedAt);
    } else {
      var v := Apply(w, es[0]);
      var rest := Stamps(v, es[1..]);
      StampsInOrder(v, es[1..]);
      if Try(w, es[0]).Some? {
        StampedAt(w, es[0]);
        assert Stamps(w, es) == [es[0].at] + rest;
        InOrderCons(w.updatedAt, [es[0].at] + rest);
      } else {
        RefusedStays(w, es[0]);
        assert Stamps(w, es) == [] + rest == rest;
      }
    }
  }

  lemma OneInstant(at: Time)
    ensures InOrder([at])
  {}

  /** The status changes a ticket has left: its pending legs, then opening, then closing. */
  ghost function Remaining(w: Wager): int {
    Sum(PendingFlags(w.legs)) + Rank(w.status)
  }

  function Rank(s: WagerStatus): nat { if s.Placed? then 2 else if s.Open? then 1 else 0 }

  function PendingFlags(legs: seq<Leg>): (r: seq<int>)
    ensures |r| == |legs|
  {
    seq(|legs|, i requires 0 <= i < |legs| => Flag(legs[i]))
  }

  function Flag(leg: Leg): int { if leg.status.LegPending? then 1 else 0 }

  lemma FlagSpent(legs: seq<Leg>, k: nat, graded: Leg)
    requires k < |legs|
    ensures Sum(PendingFlags(legs[k := graded])) == Sum(PendingFlags(legs)) - Flag(legs[k]) + Flag(graded)
  {
    assert PendingFlags(legs[k := graded]) == PendingFlags(legs)[k := Flag(graded)];
    SumUpdate(PendingFlags(legs), k, Flag(graded));
  }

  /** A grading that changes the leg's status takes a pending leg out of the count. */
  lemma GradeSpends(w: Wager, leg: string, outcome: LegStatus, at: Time)
    requires w.Inv() && w.GradeLeg(leg, outcome, at).Some?
    ensures var v := w.GradeLeg(leg, outcome, at).value;
            && |v.legs| == |w.legs|
            && (if StatusChanged(w, v) then Remaining(v) == Remaining(w) - 1 else Remaining(v) == Remaining(w))
  {
    var k := FirstLeg(w.legs, leg).value;
    var graded := w.legs[k].WithStatus(outcome, at).value;
    FlagSpent(w.legs, k, graded);
  }

  lemma {:induction false} FlagsBetween(s: seq<int>)
    requires forall i | 0 <= i < |s| :: 0 <= s[i] <= 1
    ensures 0 <= Sum(s) <= |s|
  {
    if s != [] {
      FlagsBetween(s[..|s| - 1]);
    }
  }

  ghost predicate StatusChanged(w: Wager, v: Wager)
    requires |w.legs| == |v.legs|
  {
    v.status != w.status || exists i | 0 <= i < |w.legs| :: v.legs[i].status != w.legs[i].status
  }

  lemma StepSpends(w: Wager, e: Event)
    requires w.Inv()
    ensures |Apply(w, e).legs| == |w.legs|
    ensures Remaining(Apply(w, e)) <= Remaining(w)
    ensures StatusChanged(w, Apply(w, e)) ==> Remaining(Apply(w, e)) < Remaining(w)
  {
    hide Accepts, RoundReal, FirstLeg, Sum, PendingFlags;
    if e.Grade? && w.GradeLeg(e.leg, e.outcome, e.at).Some? {
      GradeSpends(w, e.leg, e.outcome, e.at);
    }
  }

  ghost function ChangingSteps(w: Wager, es: seq<Event>): nat
    requires w.Inv()
    decreases |es|
  {
    if es == [] then 0
    else
      StepKeeps(w, es[0]);
      StepSpends(w, es[0]);
      (if StatusChanged(w, Apply(w, es[0])) then 1 else 0) + ChangingSteps(Apply(w, es[0]), es[1..])
  }

  lemma {:induction false} StepsWithinRemaining(w: Wager, es: seq<Event>)
    requires w.Inv()
    ensures ChangingSteps(w, es) <= Remaining(w)
    decreases |es|
  {
    if es == [] {
      FlagsBetween(PendingFlags(w.legs));
    } else {
      StepKeeps(w, es[0]);
      StepSpends(w, es[0]);
      StepsWithinRemaining(Apply(w, es[0]), es[1..]);
    }
  }

  /** However long the run, a ticket changes status, its own or a leg's, at most two more times than it has legs. */
  lemma ChangesBounded(p: WagerParams, es: seq<Event>)
    requires forall i | 0 <= i < |p.legs| :: p.legs[i].IsZero() || p.legs[i].Constructed()
    requires NewWager(p).Some?
    ensures ChangingSteps(NewWager(p).value, es) <= |p.legs| + 2
  {
    var w := NewWager(p).value;
    FlagsBetween(PendingFlags(w.legs));
    assert |w.Terms().legs| == |w.legs|;
    StepsWithinRemaining(w, es);
  }
}
