/** One selection inside a wager, holding the price it was booked at. */
module Legs {
  import opened Prelude
  import opened Ids

  const MIN_DECIMAL_ODDS := 1.0
  const MAX_DECIMAL_ODDS := 100000.0

  datatype MarketType = MarketUnknown | Moneyline | Spread | Total | PlayerProp | Futures

  datatype LegStatus = LegUnknown | LegPending | LegWon | LegLost | LegVoid | LegPush {

    predicate IsTerminal() { LegWon? || LegLost? || LegVoid? || LegPush? }

    predicate CanTransitionTo(next: LegStatus) {
      if LegUnknown? || next.LegUnknown? then false
      else if this == next then true
      else LegPending? && next.IsTerminal()
    }
  }

  /** The quote a leg was booked at. Odds and lines are reals. */
  datatype Price = Price(selectionId: string, decimal: real, line: Option<real>)

  datatype Leg = Leg(id: string, eventId: string, marketId: string, marketType: MarketType, selectionId: string,
                     price: Price, teasedLine: Option<real>, status: LegStatus, gradedAt: Option<Time>) {

    predicate IsZero() { id == "" }

    predicate Teasable() { (marketType.Spread? || marketType.Total?) && price.line.Some? }

    /** What every leg that came out of `NewLeg` and its transitions satisfies. */
    predicate Constructed() {
      && ValidId(id) && ValidId(eventId) && ValidId(marketId) && ValidId(selectionId)
      && !marketType.MarketUnknown?
      && price.selectionId == selectionId && MIN_DECIMAL_ODDS < price.decimal <= MAX_DECIMAL_ODDS
      && (teasedLine.Some? ==> Teasable())
      && !status.LegUnknown?
      && (gradedAt.Some? <==> status.IsTerminal())
    }

    /** The leg as it was booked, before any grading. */
    function Booking(): Leg { this.(status := LegPending, gradedAt := None) }

    /** Regrading to the same status is accepted and keeps the original grading instant. */
    function WithStatus(next: LegStatus, at: Time): (r: Option<Leg>)
      ensures r.Some? <==> status.CanTransitionTo(next) && at != ZERO_TIME
      ensures r.Some? ==> r.value.status == next && r.value.Booking() == Booking()
      ensures r.Some? && status == next ==> r.value == this
      ensures r.Some? && status != next ==> status.LegPending? && r.value.gradedAt == Some(at)
      ensures r.Some? && Constructed() ==> r.value.Constructed()
    {
      if next.LegUnknown? then None
      else if !status.CanTransitionTo(next) then None
      else if at == ZERO_TIME then None
      else if status == next then Some(this)
      else
        var nextLeg := this.(status := next);
        Some(if next.IsTerminal() then nextLeg.(gradedAt := Some(at)) else nextLeg)
    }

    function WithTeasedLine(teased: Option<real>): (r: Option<Leg>)
      ensures r.Some? <==> Teasable() && teased.Some? && !status.IsTerminal()
      ensures r.Some? ==> r.value == this.(teasedLine := teased)
    {
      if !marketType.Spread? && !marketType.Total? then None
      else if teased.None? then None
      else if price.line.None? then None
      else if status.IsTerminal() then None
      else Some(this.(teasedLine := teased))
    }
  }

  datatype LegParams = LegParams(id: string, eventId: string, marketId: string, marketType: MarketType,
                                 selectionId: string, price: Price, teasedLine: Option<real>)

  /** A leg is born pending, and teased only through `WithTeasedLine`. */
  function NewLeg(p: LegParams): (r: Option<Leg>)
    requires p.price.selectionId != "" ==> MIN_DECIMAL_ODDS < p.price.decimal <= MAX_DECIMAL_ODDS
    ensures r.Some? <==>
            && ValidId(p.id) && ValidId(p.eventId) && ValidId(p.marketId) && ValidId(p.selectionId)
            && p.marketType != MarketUnknown && p.price.selectionId == p.selectionId
            && (p.teasedLine.Some? ==> (p.marketType == Spread || p.marketType == Total) && p.price.line.Some?)
    ensures r.Some? ==>
              r.value == Leg(p.id, p.eventId, p.marketId, p.marketType, p.selectionId, p.price, p.teasedLine, LegPending, None)
    ensures r.Some? ==> r.value.Constructed()
    ensures r.Some? ==> r.value.Booking() == r.value
  {
    if !ValidId(p.id) || !ValidId(p.eventId) || !ValidId(p.marketId) || !ValidId(p.selectionId) then None
    else if p.marketType.MarketUnknown? then None
    else if p.price.selectionId == "" then None
    else if p.price.selectionId != p.selectionId then None
    else
      var leg := Leg(p.id, p.eventId, p.marketId, p.marketType, p.selectionId, p.price, None, LegPending, None);
      if p.teasedLine.Some? then leg.WithTeasedLine(p.teasedLine) else Some(leg)
  }
}
