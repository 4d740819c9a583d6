/** The enrolment and login calls as they drive the stored row and the replay guard. */
module EnrolmentService {
  import opened Prelude
  import opened Ids
  import opened Totp
  import opened SecondFactors

  class Service {
    const c: Config
    const replay: MemoryReplayGuard
    var factors: map<string, Factor>
    ghost var spent: seq<Spent>

    ghost function View(): State
      reads this, replay
    {
      State(factors, replay.used, spent)
    }

    constructor (c: Config)
      requires c.Normal() && c.StepSeconds() > 0
      ensures this.c == c && View() == START && fresh(replay)
    {
      this.c := c;
      replay := new MemoryReplayGuard();
      factors, spent := map[], [];
    }

    /** Validate the code, then burn the step it came from; accept only the first burn. */
    method ConsumeCode(codes: int -> string, user: string, code: string, at: Time, seen: Time)
      returns (ok: bool, step: Option<int>)
      requires c.Normal() && c.StepSeconds() > 0
      modifies replay, `spent
      ensures Accepts(codes, code, at, c, step)
      ensures (View(), ok) == Consumed(old(View()), c, user, step, at, seen)
      ensures ok <==> Fresh(old(replay.used), user, step, seen)
      ensures spent == if ok then old(spent) + [Spent(user, step.value, at)] else old(spent)
      ensures ok ==> (user, step.value) in replay.used && replay.used[(user, step.value)] == at + (c.skewSteps + 2) * c.period
    {
      step := ValidateTOTPCode(codes, code, at, c);
      if step.None? {
        return false, step;
      }
      ok := replay.Consume(user, step.value, c.Expiry(at), seen);
      if ok {
        spent := spent + [Spent(user, step.value, at)];
      }
    }

    /** The second factor at login: nobody without a confirmed factor is asked for one. */
    method CheckSecondFactor(codes: int -> string, user: string, code: string, at: Time, seen: Time)
      returns (admitted: bool, step: Option<int>)
      requires c.Normal() && c.StepSeconds() > 0
      modifies replay, `spent
      ensures View() == Step(old(View()), c, Login(user, step, at, seen))
      ensures spent == if admitted && step.Some? then old(spent) + [Spent(user, step.value, at)] else old(spent)
      ensures var armed := user in old(factors) && old(factors)[user].confirmed;
              if armed && code != "" then
                Accepts(codes, code, at, c, step) && admitted == Fresh(old(replay.used), user, step, seen)
              else step == None && admitted == !armed
    {
      if user !in factors || !factors[user].confirmed {
        return true, None;
      }
      if code == "" {
        return false, None;
      }
      admitted, step := ConsumeCode(codes, user, code, at, seen);
    }

    /** Arms a pending enrolment on proof of a code from it, which is spent on the way in. */
    method ConfirmEnrolment(codes: int -> string, user: string, code: string, at: Time, seen: Time)
      returns (ok: bool, step: Option<int>)
      requires c.Normal() && c.StepSeconds() > 0
      modifies replay, this
      ensures View() == Step(old(View()), c, Confirm(user, step, at, seen))
      ensures var pending := user in old(factors) && !old(factors)[user].confirmed;
              if pending then
                Accepts(codes, code, at, c, step) && ok == Fresh(old(replay.used), user, step, seen)
              else step == None && !ok
      ensures factors == if ok then old(factors)[user := Factor(old(factors)[user].secret, true)] else old(factors)
      ensures spent == if ok then old(spent) + [Spent(user, step.value, at)] else old(spent)
    {
      if user !in factors || factors[user].confirmed {
        return false, None;
      }
      ok, step := ConsumeCode(codes, user, code, at, seen);
      if ok {
        factors := factors[user := factors[user].(confirmed := true)];
      }
    }

    /** Removes the factor on proof of a currently valid code from it, confirmed or not. */
    method DisableTOTPWithCode(codes: int -> string, user: string, code: string, at: Time, seen: Time)
      returns (ok: bool, step: Option<int>)
      requires c.Normal() && c.StepSeconds() > 0
      modifies replay, this
      ensures View() == Step(old(View()), c, DisableWithCode(user, step, at, seen))
      ensures if user in old(factors) then
                Accepts(codes, code, at, c, step) && ok == Fresh(old(replay.used), user, step, seen)
              else step == None && !ok
      ensures factors == if ok then old(factors) - {user} else old(factors)
      ensures spent == if ok then old(spent) + [Spent(user, step.value, at)] else old(spent)
    {
      if user !in factors {
        return false, None;
      }
      ok, step := ConsumeCode(codes, user, code, at, seen);
      if ok {
        factors := factors - {user};
      }
    }

    /** Stores a fresh secret unconfirmed; only an unconfirmed row is ever replaced. */
    method BeginEnrolment(user: string, secret: string) returns (ok: bool)
      modifies `factors
      ensures View() == Step(old(View()), c, Begin(user, secret))
      ensures ok <==> !(user in old(factors) && old(factors)[user].confirmed)
      ensures factors == if ok then old(factors)[user := Factor(secret, false)] else old(factors)
    {
      if user in factors && factors[user].confirmed {
        return false;
      }
      factors := factors[user := Factor(secret, false)];
      return true;
    }
  }
}
