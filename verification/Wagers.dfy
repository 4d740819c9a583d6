/**
 * The ticket: placement checks, and the lifecycle placed → open → closed. Every
 * transition returns a new value; a refused one changes nothing.
 */
module Wagers {
  import opened Prelude
  import opened Ids
  import opened Money
  import opened Legs

  const MAX_WAGER_LEGS := 25
  const MAX_TEASER_POINTS := 20.0
  const MAX_WAGER_DECIMAL := 1000000000.0
  const TEASER_LINE_TOLERANCE := 0.000000001
  const PRICE_TOLERANCE := 0.000000000001

  datatype WagerKind = KindUnknown | Straight | Parlay | RoundRobinTicket | Teaser {
    predicate IsMulti() { Parlay? || RoundRobinTicket? || Teaser? }
  }

  datatype WagerStatus = StatusUnknown | Placed | Open | Won | Lost | Void | Push | CashedOut {

    predicate IsTerminal() { Won? || Lost? || Void? || Push? || CashedOut? }

    predicate IsGraded() { Won? || Lost? || Void? || Push? }

    predicate HoldsEscrow() { Placed? || Open? }

    predicate CanTransitionTo(next: WagerStatus) {
      if StatusUnknown? || next.StatusUnknown? then false
      else if this == next then true
      else if Placed? then next.Open? || next.IsTerminal()
      else if Open? then next.IsTerminal()
      else false
    }
  }

  function AbsReal(x: real): real { if x < 0.0 then -x else x }

  function MaxReal(x: real, y: real): real { if x < y then y else x }

  /** At least one leg and at most 25, all pending, no selection and no market twice. */
  predicate LegSetOk(legs: seq<Leg>) {
    && 1 <= |legs| <= MAX_WAGER_LEGS
    && (forall i | 0 <= i < |legs| :: !legs[i].IsZero() && legs[i].status.LegPending?)
    && forall i, j | 0 <= i < j < |legs| ::
         legs[i].selectionId != legs[j].selectionId && legs[i].marketId != legs[j].marketId
  }

  /** The scan with its two sets of values already seen. */
  method ValidateLegSet(legs: seq<Leg>) returns (ok: bool)
    ensures ok <==> LegSetOk(legs)
  {
    if |legs| == 0 || |legs| > MAX_WAGER_LEGS {
      return false;
    }
    var seenSelection: set<string>, seenMarket: set<string> := {}, {};
    for i := 0 to |legs|
      invariant seenSelection == set k | 0 <= k < i :: legs[k].selectionId
      invariant seenMarket == set k | 0 <= k < i :: legs[k].marketId
      invariant forall k | 0 <= k < i :: !legs[k].IsZero() && legs[k].status.LegPending?
      invariant forall k, m | 0 <= k < m < i ::
                  legs[k].selectionId != legs[m].selectionId && legs[k].marketId != legs[m].marketId
    {
      if legs[i].IsZero() || !legs[i].status.LegPending? {
        return false;
      }
      if legs[i].selectionId in seenSelection || legs[i].marketId in seenMarket {
        return false;
      }
      seenSelection := seenSelection + {legs[i].selectionId};
      seenMarket := seenMarket + {legs[i].marketId};
    }
    return true;
  }

  predicate LegCountOk(kind: WagerKind, n: nat) {
    (kind.Straight? ==> n == 1) && (kind.IsMulti() ==> n >= 2)
  }

  /** A teased leg's line sits `points` away from the booked one, in either direction. */
  predicate TeasedBy(leg: Leg, points: real) {
    && leg.teasedLine.Some? && leg.price.line.Some?
    && AbsReal(AbsReal(leg.teasedLine.value - leg.price.line.value) - points) <= TEASER_LINE_TOLERANCE
  }

  predicate TeaserOk(kind: WagerKind, points: real, legs: seq<Leg>) {
    if !kind.Teaser? then points == 0.0 && forall i | 0 <= i < |legs| :: legs[i].teasedLine.None?
    else 0.0 < points <= MAX_TEASER_POINTS && forall i | 0 <= i < |legs| :: TeasedBy(legs[i], points)
  }

  predicate ParentOk(kind: WagerKind, parent: string) {
    if kind.RoundRobinTicket? then ValidId(parent) else parent == ""
  }

  predicate TicketPriceOk(kind: WagerKind, accepted: real, legs: seq<Leg>)
    requires |legs| > 0
  {
    && MIN_DECIMAL_ODDS < accepted <= MAX_WAGER_DECIMAL
    && (kind.Straight? ==>
          AbsReal(accepted - legs[0].price.decimal)
          <= PRICE_TOLERANCE * MaxReal(AbsReal(accepted), AbsReal(legs[0].price.decimal)))
  }

  datatype WagerParams = WagerParams(id: string, userId: string, kind: WagerKind, legs: seq<Leg>, stake: Int64,
                                     accepted: real, rounding: Rounding, teaserPoints: real,
                                     roundRobinId: string, placedAt: Time)

  /** What a ticket must satisfy to be placed. The only arithmetic failure left is a payout out of range. */
  predicate Accepts(p: WagerParams) {
    && ValidId(p.id) && ValidId(p.userId) && !p.kind.KindUnknown?
    && LegSetOk(p.legs) && LegCountOk(p.kind, |p.legs|) && TeaserOk(p.kind, p.teaserPoints, p.legs)
    && ParentOk(p.kind, p.roundRobinId)
    && 0 < p.stake <= MAX_SAFE
    && TicketPriceOk(p.kind, p.accepted, p.legs)
    && !p.rounding.RoundingUnknown?
    && p.placedAt != ZERO_TIME
    && Safe(RoundReal(Product(p.stake, p.accepted), p.rounding))
  }

  datatype Wager = Wager(id: string, userId: string, kind: WagerKind, legs: seq<Leg>, stake: Int64, accepted: real,
                         rounding: Rounding, payout: Int64, profit: Int64, teaserPoints: real, hasTeaser: bool,
                         roundRobinId: string, status: WagerStatus, returned: Int64, netReturn: Int64,
                         hasReturned: bool, placedAt: Time, updatedAt: Time) {

    function Bookings(): seq<Leg> { seq(|legs|, i requires 0 <= i < |legs| => legs[i].Booking()) }

    /** The terms the ticket was placed on, read back from the ticket. */
    function Terms(): WagerParams {
      WagerParams(id, userId, kind, Bookings(), stake, accepted, rounding, teaserPoints, roundRobinId, placedAt)
    }

    /** The amount each outcome may return. */
    predicate ReturnOk(outcome: WagerStatus, amount: int) {
      match outcome
      case Lost => amount == 0
      case Void => amount == stake
      case Push => amount == stake
      case Won => stake <= amount <= payout
      case CashedOut => 0 < amount <= payout
      case _ => amount == 0
    }

    /** Fixed at placement: acceptable terms, and the payout promised under them. */
    predicate TicketOk() {
      && Accepts(Terms())
      && payout == RoundReal(Product(stake, accepted), rounding) && stake <= payout <= MAX_SAFE
      && profit == payout - stake
      && hasTeaser == kind.Teaser?
    }

    /** Kept by every transition. */
    predicate Inv() {
      && TicketOk()
      && !status.StatusUnknown?
      && hasReturned == status.IsTerminal()
      && ReturnOk(status, returned)
      && netReturn == (if hasReturned then returned - stake else 0)
      && placedAt <= updatedAt
      && forall i | 0 <= i < |legs| ::
           legs[i].Constructed() && (legs[i].gradedAt.Some? ==> placedAt <= legs[i].gradedAt.value <= updatedAt)
    }

    /** Stamps are monotone; two transitions may share an instant. */
    function Stamp(at: Time): (r: Option<Wager>)
      ensures r.Some? <==> at != ZERO_TIME && updatedAt <= at
      ensures r.Some? ==> r.value == this.(updatedAt := at)
    {
      if at == ZERO_TIME then None
      else if at < updatedAt then None
      else Some(this.(updatedAt := at))
    }

    function MarkOpen(at: Time): Option<Wager> {
      if !status.CanTransitionTo(Open) then None
      else
        match Stamp(at)
        case None => None
        case Some(next) => Some(next.(status := Open))
    }

    function GradeLeg(id: string, next: LegStatus, at: Time): Option<Wager> {
      if status.IsTerminal() then None
      else
        match FirstLeg(legs, id)
        case None => None
        case Some(idx) =>
          match legs[idx].WithStatus(next, at)
          case None => None
          case Some(graded) =>
            match Stamp(at)
            case None => None
            case Some(stamped) => Some(stamped.(legs := legs[idx := graded]))
    }

    function Settle(next: WagerStatus, amount: Int64, at: Time): Option<Wager> {
      if !next.IsGraded() then None
      else if !status.CanTransitionTo(next) then None
      else if !CheckReturn(next, amount) then None
      else SettleAt(next, amount, at)
    }

    function CashOut(amount: Int64, at: Time): Option<Wager> {
      if !status.CanTransitionTo(CashedOut) then None
      else if amount <= 0 then None
      else if amount > payout then None
      else SettleAt(CashedOut, amount, at)
    }

    predicate CheckReturn(outcome: WagerStatus, amount: Int64) {
      match outcome
      case Lost => amount == 0
      case Void => amount == stake
      case Push => amount == stake
      case Won => !(amount < stake) && !(amount > payout)
      case _ => false
    }

    function SettleAt(next: WagerStatus, amount: Int64, at: Time): Option<Wager> {
      match Sub(amount, stake)
      case None => None
      case Some(net) =>
        match Stamp(at)
        case None => None
        case Some(stamped) =>
          Some(stamped.(status := next, returned := amount, netReturn := net, hasReturned := true))
    }
  }

  /** The first leg carrying the identifier; legs behind it with the same one are out of reach. */
  function FirstLeg(legs: seq<Leg>, id: string): (r: Option<nat>)
    ensures r.None? <==> forall i | 0 <= i < |legs| :: legs[i].id != id
    ensures r.Some? ==> r.value < |legs| && legs[r.value].id == id
    ensures r.Some? ==> forall i | 0 <= i < r.value :: legs[i].id != id
  {
    if legs == [] then None
    else if legs[0].id == id then Some(0)
    else
      match FirstLeg(legs[1..], id)
      case None =>
        assert forall i | 0 < i < |legs| :: legs[i] == legs[1..][i - 1];
        None
      case Some(k) =>
        assert forall i | 0 < i < |legs| :: legs[i] == legs[1..][i - 1];
        Some(k + 1)
  }

  lemma ProductAbove(stake: int, odds: real)
    requires stake > 0 && odds > 1.0
    ensures stake as real <= Product(stake, odds)
  {
    var s := stake as real;
    assert s * odds - s == s * (odds - 1.0);
  }

  /** Winning never returns less than the stake: odds above one survive the rounding of the product. */
  lemma PayoutCoversStake(p: WagerParams)
    requires p.stake > 0 && p.accepted > 1.0 && !p.rounding.RoundingUnknown?
    ensures p.stake <= RoundReal(Product(p.stake, p.accepted), p.rounding)
  {
    ProductAbove(p.stake, p.accepted);
    RoundingKeepsFloor(Product(p.stake, p.accepted), p.stake, p.rounding);
  }

  /** Ungraded legs are their own bookings. */
  lemma BookedAsGiven(w: Wager)
    requires forall i | 0 <= i < |w.legs| :: w.legs[i].Constructed() && w.legs[i].status.LegPending?
    ensures w.Bookings() == w.legs
  {
    forall i | 0 <= i < |w.legs| ensures w.Bookings()[i] == w.legs[i] {
      assert w.legs[i].Constructed();
    }
  }

  /** Placement succeeds exactly on acceptable terms, and records them unchanged. */
  function NewWager(p: WagerParams): (r: Option<Wager>)
    requires forall i | 0 <= i < |p.legs| :: p.legs[i].IsZero() || p.legs[i].Constructed()
    ensures r.Some? <==> Accepts(p)
    ensures r.Some? ==> r.value.Inv() && r.value.status.Placed? && r.value.Terms() == p
    ensures r.Some? ==> r.value.legs == p.legs && r.value.updatedAt == p.placedAt
  {
    if !ValidId(p.id) || !ValidId(p.userId) then None
    else if p.kind.KindUnknown? then None
    else if !LegSetOk(p.legs) then None
    else if !LegCountOk(p.kind, |p.legs|) then None
    else if !TeaserOk(p.kind, p.teaserPoints, p.legs) then None
    else if !ParentOk(p.kind, p.roundRobinId) then None
    else if p.stake <= 0 then None
    else if !TicketPriceOk(p.kind, p.accepted, p.legs) then None
    else if p.rounding.RoundingUnknown? then None
    else if p.placedAt == ZERO_TIME then None
    else
      match MulFloat(p.stake, p.accepted, p.rounding)
      case None => None
      case Some(payout) =>
        PayoutCoversStake(p);
        if payout < p.stake then None
        else
          match Sub(payout, p.stake)
          case None => None
          case Some(profit) =>
            var w := Wager(p.id, p.userId, p.kind, p.legs, p.stake, p.accepted, p.rounding, payout, profit,
                           p.teaserPoints, p.kind.Teaser?, p.roundRobinId, Placed, 0, 0, false,
                           p.placedAt, p.placedAt);
            BookedAsGiven(w);
            Some(w)
  }

  predicate CommonTerms(p: WagerParams) {
    && ValidId(p.id) && ValidId(p.userId) && p.placedAt != ZERO_TIME
    && (p.rounding.HalfAwayFromZero? || p.rounding.HalfToEven? || p.rounding.TowardZero?)
    && 1 <= |p.legs| <= 25
    && (forall i | 0 <= i < |p.legs| :: p.legs[i].id != "" && p.legs[i].status.LegPending?)
    && (forall i, j | 0 <= i < |p.legs| && 0 <= j < |p.legs| && i != j ::
          p.legs[i].selectionId != p.legs[j].selectionId && p.legs[i].marketId != p.legs[j].marketId)
    && 0 < p.stake <= MAX_SAFE && 1.0 < p.accepted <= 1000000000.0
    && RoundReal(Product(p.stake, p.accepted), p.rounding) <= MAX_SAFE
  }

  predicate Unteased(p: WagerParams) {
    p.teaserPoints == 0.0 && forall i | 0 <= i < |p.legs| :: p.legs[i].teasedLine == None
  }

  /** The price is the leg's own, up to one part in 10^12 of the larger. */
  predicate SamePrice(accepted: real, booked: real) {
    -PRICE_TOLERANCE * MaxReal(accepted, booked) <= accepted - booked <= PRICE_TOLERANCE * MaxReal(accepted, booked)
  }

  /** Each line moved by the points sold, up or down, to within a billionth. */
  predicate MovedBy(leg: Leg, points: real) {
    && leg.teasedLine.Some? && leg.price.line.Some?
    && var moved := leg.teasedLine.value - leg.price.line.value;
       || points - TEASER_LINE_TOLERANCE <= moved <= points + TEASER_LINE_TOLERANCE
       || points - TEASER_LINE_TOLERANCE <= -moved <= points + TEASER_LINE_TOLERANCE
  }

  /**
   * What placement asks, kind by kind: a straight has one leg at its own price, every
   * other ticket at least two; only a teaser is teased, by the points it was sold at;
   * only a round robin's ticket names a parent, and it must.
   */
  lemma PlacementByKind(p: WagerParams)
    requires forall i | 0 <= i < |p.legs| :: p.legs[i].IsZero() || p.legs[i].Constructed()
    ensures NewWager(p).Some? <==>
            && CommonTerms(p)
            && match p.kind
               case Straight =>
                 |p.legs| == 1 && Unteased(p) && p.roundRobinId == "" && SamePrice(p.accepted, p.legs[0].price.decimal)
               case Parlay => |p.legs| >= 2 && Unteased(p) && p.roundRobinId == ""
               case RoundRobinTicket => |p.legs| >= 2 && Unteased(p) && ValidId(p.roundRobinId)
               case Teaser =>
                 |p.legs| >= 2 && p.roundRobinId == "" && 0.0 < p.teaserPoints <= 20.0
                 && forall i | 0 <= i < |p.legs| :: MovedBy(p.legs[i], p.teaserPoints)
               case KindUnknown => false
  {
    if p.stake > 0 && p.accepted > 1.0 && !p.rounding.RoundingUnknown? {
      PayoutCoversStake(p);
    }
    hide RoundReal;
    LegSetSpelt(p.legs);
    TeaserSpelt(p.kind, p.teaserPoints, p.legs);
    hide LegSetOk, TeaserOk;
  }

  lemma LegSetSpelt(legs: seq<Leg>)
    ensures LegSetOk(legs) <==>
            && 1 <= |legs| <= 25
            && (forall i | 0 <= i < |legs| :: legs[i].id != "" && legs[i].status.LegPending?)
            && (forall i, j | 0 <= i < |legs| && 0 <= j < |legs| && i != j ::
                  legs[i].selectionId != legs[j].selectionId && legs[i].marketId != legs[j].marketId)
  {}

  lemma TeaserSpelt(kind: WagerKind, points: real, legs: seq<Leg>)
    ensures TeaserOk(kind, points, legs) <==>
            if kind.Teaser? then 0.0 < points <= 20.0 && forall i | 0 <= i < |legs| :: MovedBy(legs[i], points)
            else points == 0.0 && forall i | 0 <= i < |legs| :: legs[i].teasedLine == None
  {}
}
