/**
 * Enrolment, login and removal, all spending codes through one guard. A run accepts
 * each (user, step) at most once, whatever it mixes and whatever the guard forgets.
 */
module SecondFactors {
  import opened Prelude
  import opened Ids
  import opened Money
  import opened Totp

  /** One enrolment; only a confirmed one is a second factor. */
  datatype Factor = Factor(secret: string, confirmed: bool)

  /** A step that was accepted, and the instant it was presented at. */
  datatype Spent = Spent(user: string, step: int, at: Time)

  datatype State = State(factors: map<string, Factor>, used: map<Key, Time>, spent: seq<Spent>)

  const START := State(map[], map[], [])

  /** `at` is the service's reading of the clock, `seen` the guard's own reading a moment later. */
  datatype Event =
    | Login(user: string, step: Option<int>, at: Time, seen: Time)
    | Confirm(user: string, step: Option<int>, at: Time, seen: Time)
    | DisableWithCode(user: string, step: Option<int>, at: Time, seen: Time)
    | Begin(user: string, secret: string)
    | Disable(user: string)

  predicate Presents(e: Event) { e.Login? || e.Confirm? || e.DisableWithCode? }

  /** Validate, then burn; only a first burn accepts. The step is what validation matched, if anything. */
  function Consumed(s: State, c: Config, user: string, step: Option<int>, at: Time, seen: Time): (State, bool) {
    match step
    case None => (s, false)
    case Some(k) =>
      var (used, first) := Burnt(s.used, (user, k), c.Expiry(at), seen);
      (s.(used := used, spent := if first then s.spent + [Spent(user, k, at)] else s.spent), first)
  }

  /** Validation found a step, and no entry that is still live holds it. */
  predicate Fresh(used: map<Key, Time>, user: string, step: Option<int>, seen: Time) {
    step.Some? && ((user, step.value) !in used || used[(user, step.value)] <= seen)
  }

  /** A presentation is accepted exactly when its step is fresh, and is then on the books for skew + 2 periods. */
  lemma ConsumedExactly(s: State, c: Config, user: string, step: Option<int>, at: Time, seen: Time)
    ensures var (after, ok) := Consumed(s, c, user, step, at, seen);
            && ok == Fresh(s.used, user, step, seen) && after.factors == s.factors
            && after.spent == (if ok then s.spent + [Spent(user, step.value, at)] else s.spent)
            && (ok ==> (user, step.value) in after.used
                       && after.used[(user, step.value)] == at + (c.skewSteps + 2) * c.period)
            && (step.None? ==> after.used == s.used)
            && forall k | step.Some? && (!ok || k != (user, step.value)) ::
                 if k in s.used && seen < s.used[k] then k in after.used && after.used[k] == s.used[k] else k !in after.used
  {}

  function Step(s: State, c: Config, e: Event): State {
    match e
    case Login(user, step, at, seen) =>
      if user !in s.factors || !s.factors[user].confirmed then s else Consumed(s, c, user, step, at, seen).0
    case Confirm(user, step, at, seen) =>
      if user !in s.factors || s.factors[user].confirmed then s
      else
        var (after, ok) := Consumed(s, c, user, step, at, seen);
        if ok then after.(factors := s.factors[user := s.factors[user].(confirmed := true)]) else after
    case DisableWithCode(user, step, at, seen) =>
      if user !in s.factors then s
      else
        var (after, ok) := Consumed(s, c, user, step, at, seen);
        if ok then after.(factors := s.factors - {user}) else after
    case Begin(user, secret) =>
      if user in s.factors && s.factors[user].confirmed then s
      else s.(factors := s.factors[user := Factor(secret, false)])
    case Disable(user) => s.(factors := s.factors - {user})
  }

  /** Who is asked for a code: at login the owner of a confirmed factor, to confirm one of a pending, to remove one of any. */
  predicate Asked(s: State, e: Event) {
    && Presents(e) && e.user in s.factors
    && (e.Login? ==> s.factors[e.user].confirmed) && (e.Confirm? ==> !s.factors[e.user].confirmed)
  }

  /**
   * What each call leaves in the rows: a fresh code arms the pending row with its own
   * secret, or removes the row it was presented to; an enrolment starts over anything
   * but a confirmed row; a removal removes; and no other user's row moves.
   */
  lemma RowsAfter(s: State, c: Config, e: Event)
    ensures var first := Presents(e) && Fresh(s.used, e.user, e.step, e.seen);
            && Step(s, c, e).factors ==
                 (match e
                  case Login(_, _, _, _) => s.factors
                  case Confirm(user, _, _, _) =>
                    if first && Asked(s, e) then s.factors[user := Factor(s.factors[user].secret, true)] else s.factors
                  case DisableWithCode(user, _, _, _) => if first then s.factors - {user} else s.factors
                  case Begin(user, secret) =>
                    if user in s.factors && s.factors[user].confirmed then s.factors
                    else s.factors[user := Factor(secret, false)]
                  case Disable(user) => s.factors - {user})
            && Step(s, c, e).spent == (if first && Asked(s, e) then s.spent + [Spent(e.user, e.step.value, e.at)] else s.spent)
            && Step(s, c, e).used == if Asked(s, e) then Consumed(s, c, e.user, e.step, e.at, e.seen).0.used else s.used
  {
    if Presents(e) {
      ConsumedExactly(s, c, e.user, e.step, e.at, e.seen);
    }
    hide Consumed, Fresh;
  }

  function Run(s: State, c: Config, es: seq<Event>): State {
    if es == [] then s else Step(Run(s, c, es[..|es| - 1]), c, es[|es| - 1])
  }

  /** The step an event carries is one that validation could have matched. */
  predicate InWindow(c: Config, e: Event)
    requires c.StepSeconds() > 0
  {
    Presents(e) && e.step.Some? ==> -c.skewSteps <= e.step.value - StepOf(e.at, c) <= c.skewSteps
  }

  /** What validation returns is always in the window. */
  lemma ValidatedInWindow(codes: int -> string, code: string, c: Config, e: Event)
    requires c.StepSeconds() > 0 && Presents(e) && Accepts(codes, code, e.at, c, e.step)
    ensures InWindow(c, e)
  {}

  /** The time by which an entry outlives the last instant its step can match. */
  function Slack(c: Config): int {
    (c.skewSteps + 2) * c.period - (2 * c.skewSteps + 1) * (c.StepSeconds() * SECOND)
  }

  /** Clocks from 1970 on; the guard's readings do not go back and trail the service's by no more than the slack. */
  ghost predicate ClocksOk(c: Config, es: seq<Event>) {
    && (forall i | 0 <= i < |es| && Presents(es[i]) :: 0 <= es[i].at && es[i].seen <= es[i].at + Slack(c))
    && (forall i, j | 0 <= i < j < |es| && Presents(es[i]) && Presents(es[j]) :: es[i].seen <= es[j].seen)
  }

  ghost predicate WindowsOk(c: Config, es: seq<Event>)
    requires c.StepSeconds() > 0
  {
    forall i | 0 <= i < |es| :: InWindow(c, es[i])
  }

  ghost predicate SpentOnce(spent: seq<Spent>) {
    forall i, j | 0 <= i < j < |spent| :: spent[i].user != spent[j].user || spent[i].step != spent[j].step
  }

  /** A spent step is either remembered until its expiry or already past it. */
  ghost predicate Remembered(s: State, c: Config, x: Spent, seen: Time) {
    var key := (x.user, x.step);
    (key in s.used && s.used[key] == c.Expiry(x.at)) || c.Expiry(x.at) <= seen
  }

  ghost predicate Inv(s: State, c: Config, seen: Time)
    requires c.StepSeconds() > 0
  {
    && SpentOnce(s.spent)
    && forall i | 0 <= i < |s.spent| ::
         && 0 <= s.spent[i].at && -c.skewSteps <= s.spent[i].step - StepOf(s.spent[i].at, c) <= c.skewSteps
         && Remembered(s, c, s.spent[i], seen)
  }

  /** Two instants that can both match one step lie less than 2*skew+1 steps apart. */
  lemma WindowWidth(c: Config, step: int, first: Time, second: Time)
    requires c.Normal() && c.StepSeconds() > 0 && first >= 0 && second >= 0
    requires step - StepOf(first, c) <= c.skewSteps && -c.skewSteps <= step - StepOf(second, c)
    ensures second < first + (2 * c.skewSteps + 1) * (c.StepSeconds() * SECOND)
  {
    StepInterval(first, c);
    StepInterval(second, c);
    var w := c.StepSeconds() * SECOND;
    Spaced(StepOf(first, c), StepOf(second, c), 2 * c.skewSteps, w, first, second);
  }

  lemma Spaced(p: int, q: int, n: int, w: int, first: int, second: int)
    requires w > 0 && q <= p + n && p * w <= first && second < (q + 1) * w
    ensures second < first + (n + 1) * w
  {
    assert (q + 1) * w <= (p + n + 1) * w == p * w + (n + 1) * w;
  }

  /** While a spent step can still match, its entry has not expired at the guard. */
  lemma StillRemembered(c: Config, x: Spent, at: Time, seen: Time)
    requires c.Normal() && c.StepSeconds() > 0 && x.at >= 0 && at >= 0 && seen <= at + Slack(c)
    requires x.step - StepOf(x.at, c) <= c.skewSteps && -c.skewSteps <= x.step - StepOf(at, c)
    ensures seen < c.Expiry(x.at)
  {
    WindowWidth(c, x.step, x.at, at);
  }

  lemma ConsumedKeeps(s: State, c: Config, user: string, step: Option<int>, at: Time, seen: Time, before: Time)
    requires c.Normal() && c.StepSeconds() > 0 && Inv(s, c, before)
    requires before <= seen <= at + Slack(c) && 0 <= at
    requires step.Some? ==> -c.skewSteps <= step.value - StepOf(at, c) <= c.skewSteps
    ensures Inv(Consumed(s, c, user, step, at, seen).0, c, seen)
  {
    hide StepOf;
    if step.Some? {
      forall i | 0 <= i < |s.spent| && s.spent[i].user == user && s.spent[i].step == step.value
        ensures (user, step.value) in Live(s.used, seen)
      {
        StillRemembered(c, s.spent[i], at, seen);
      }
      hide Config.Expiry;
      var after := Consumed(s, c, user, step, at, seen).0;
      forall i | 0 <= i < |s.spent| ensures Remembered(after, c, s.spent[i], seen) {
        assert Remembered(s, c, s.spent[i], before);
      }
    }
  }

  lemma Later(s: State, c: Config, before: Time, seen: Time)
    requires c.StepSeconds() > 0 && Inv(s, c, before) && before <= seen
    ensures Inv(s, c, seen)
  {
    hide StepOf, Config.Expiry;
    forall i | 0 <= i < |s.spent| ensures Remembered(s, c, s.spent[i], seen) {
      assert Remembered(s, c, s.spent[i], before);
    }
  }

  lemma FactorsIgnored(s: State, c: Config, factors: map<string, Factor>, seen: Time)
    requires c.StepSeconds() > 0 && Inv(s, c, seen)
    ensures Inv(s.(factors := factors), c, seen)
  {
    hide StepOf, Config.Expiry;
    forall i | 0 <= i < |s.spent| ensures Remembered(s.(factors := factors), c, s.spent[i], seen) {
      assert Remembered(s, c, s.spent[i], seen);
    }
  }

  /** The state after an event is the presentation's own, up to the enrolment rows. */
  lemma StepKeeps(s: State, c: Config, e: Event, before: Time)
    requires c.Normal() && c.StepSeconds() > 0 && Inv(s, c, before) && InWindow(c, e)
    requires Presents(e) ==> 0 <= e.at && before <= e.seen <= e.at + Slack(c)
    ensures Inv(Step(s, c, e), c, if Presents(e) then e.seen else before)
  {
    var after := if Presents(e) then Consumed(s, c, e.user, e.step, e.at, e.seen).0 else s;
    if Presents(e) {
      ConsumedKeeps(s, c, e.user, e.step, e.at, e.seen, before);
      Later(s, c, before, e.seen);
    }
    hide Inv, StepOf;
    FactorsIgnored(after, c, Step(s, c, e).factors, if Presents(e) then e.seen else before);
  }

  /** A reading of the guard's clock no later than any in the run. */
  ghost function Earliest(es: seq<Event>): Time {
    if es == [] then 0
    else
      var m := Earliest(es[..|es| - 1]);
      var e := es[|es| - 1];
      if Presents(e) && e.seen < m then e.seen else m
  }

  ghost function LastSeen(first: Time, es: seq<Event>): Time {
    if es == [] then first
    else if Presents(es[|es| - 1]) then es[|es| - 1].seen
    else LastSeen(first, es[..|es| - 1])
  }

  lemma {:induction false} EarliestBounds(es: seq<Event>, i: nat)
    requires i < |es| && Presents(es[i])
    ensures Earliest(es) <= es[i].seen
  {
    if i < |es| - 1 {
      EarliestBounds(es[..|es| - 1], i);
    }
  }

  lemma {:induction false} LastSeenBounded(first: Time, es: seq<Event>, bound: Time)
    requires first <= bound && forall i | 0 <= i < |es| && Presents(es[i]) :: es[i].seen <= bound
    ensures LastSeen(first, es) <= bound
  {
    if es != [] {
      LastSeenBounded(first, es[..|es| - 1], bound);
    }
  }

  lemma {:induction false} RunKeeps(c: Config, es: seq<Event>, first: Time)
    requires c.Normal() && c.StepSeconds() > 0 && WindowsOk(c, es) && ClocksOk(c, es)
    requires forall i | 0 <= i < |es| && Presents(es[i]) :: first <= es[i].seen
    ensures Inv(Run(START, c, es), c, LastSeen(first, es))
  {
    hide Step, Inv, InWindow, Slack;
    if es == [] {
      EmptyInv(c, first);
    } else {
      var m := |es| - 1;
      RunKeeps(c, es[..m], first);
      if Presents(es[m]) {
        LastSeenBounded(first, es[..m], es[m].seen);
      }
      StepKeeps(Run(START, c, es[..m]), c, es[m], LastSeen(first, es[..m]));
    }
  }

  lemma EmptyInv(c: Config, first: Time)
    requires c.StepSeconds() > 0
    ensures Inv(START, c, first)
  {}

  /** Over every run mixing login, enrolment and removal, each (user, step) is accepted at most once. */
  lemma AcceptedOnce(c: Config, es: seq<Event>)
    requires c.Normal() && c.StepSeconds() > 0 && WindowsOk(c, es) && ClocksOk(c, es)
    ensures SpentOnce(Run(START, c, es).spent)
  {
    forall i | 0 <= i < |es| && Presents(es[i]) ensures Earliest(es) <= es[i].seen {
      EarliestBounds(es, i);
    }
    RunKeeps(c, es, Earliest(es));
  }

  /**
   * The two readings of each presentation: the service's from 1970 on, the guard's
   * no earlier and at most `delay` later, and the guard's never going back.
   */
  ghost predicate Readings(es: seq<Event>, delay: int) {
    && (forall i | 0 <= i < |es| && Presents(es[i]) :: 0 <= es[i].at <= es[i].seen <= es[i].at + delay)
    && (forall i, j | 0 <= i < j < |es| && Presents(es[i]) && Presents(es[j]) :: es[i].seen <= es[j].seen)
  }

  /** One-time use over every run whose guard reads the clock at most `delay` after the service. */
  ghost predicate OneTimeUse(c: Config, delay: int)
    requires c.StepSeconds() > 0
  {
    forall es | WindowsOk(c, es) && Readings(es, delay) :: SpentOnce(Run(START, c, es).spent)
  }

  /** The last instant at which the step `skew` ahead of the epoch still matches. */
  function LastMatch(c: Config): Time { (2 * c.skewSteps + 1) * (c.StepSeconds() * SECOND) - 1 }

  /** The guard's reading for it: no earlier, and late enough for the entry to have expired. */
  function LateReading(c: Config): Time {
    if LastMatch(c) < c.Expiry(0) then c.Expiry(0) else LastMatch(c)
  }

  /** A code confirmed at the epoch and presented again at the last instant it matches. */
  function ReplayRun(c: Config): seq<Event> {
    var step := Some(c.skewSteps);
    [Begin("user", "secret"), Confirm("user", step, 0, 0), Login("user", step, LastMatch(c), LateReading(c))]
  }

  lemma LastMatchStep(c: Config)
    requires c.Normal() && c.StepSeconds() > 0
    ensures StepOf(0, c) == 0 && LastMatch(c) >= 0 && StepOf(LastMatch(c), c) == 2 * c.skewSteps
  {
    var k := c.StepSeconds();
    var n := 2 * c.skewSteps + 1;
    assert LastMatch(c) == n * (k * SECOND) - 1;
    BeforeMultiple(n, k);
  }

  lemma BeforeMultiple(n: nat, k: nat)
    requires n >= 1 && k >= 1
    ensures n * (k * SECOND) - 1 >= 0 && TruncDiv(0, k) == 0
    ensures TruncDiv((n * (k * SECOND) - 1) / SECOND, k) == n - 1
  {
    var at := n * (k * SECOND) - 1;
    assert n * (k * SECOND) == n * k * SECOND && n * k >= 1;
    assert at / SECOND == n * k - 1;
    var q := (n * k - 1) / k;
    Quotient(n * k - 1, k);
    Quotient(0, k);
    assert (n - 1) * k == n * k - k;
    QuotientUnique(n * k - 1, k, q, n - 1);
    QuotientUnique(0, k, 0 / k, 0);
  }

  lemma QuotientUnique(a: nat, k: nat, p: nat, q: nat)
    requires k > 0 && p * k <= a < p * k + k && q * k <= a < q * k + k
    ensures p == q
  {
    assert p < q ==> (p + 1) * k <= q * k;
    assert q < p ==> (q + 1) * k <= p * k;
  }

  lemma RunOne(c: Config, es: seq<Event>, e: Event)
    ensures Run(START, c, es + [e]) == Step(Run(START, c, es), c, e)
  {
    assert (es + [e])[..|es|] == es;
  }

  lemma ReplaySpent(c: Config)
    ensures Run(START, c, ReplayRun(c)).spent == [Spent("user", c.skewSteps, 0), Spent("user", c.skewSteps, LastMatch(c))]
  {
    var step, late, seen, expiry := Some(c.skewSteps), LastMatch(c), LateReading(c), c.Expiry(0);
    assert expiry <= seen;
    hide Config.Expiry, LastMatch, LateReading;
    var b, f, l := Begin("user", "secret"), Confirm("user", step, 0, 0), Login("user", step, late, seen);
    RunOne(c, [], b);
    RunOne(c, [b], f);
    RunOne(c, [b, f], l);
    assert [] + [b] == [b] && [b] + [f] == [b, f] && [b, f] + [l] == ReplayRun(c);
    hide Run;
    var s1 := Step(START, c, b);
    var s2 := Step(s1, c, f);
    assert s2.spent == [Spent("user", c.skewSteps, 0)] && s2.used == map[("user", c.skewSteps) := expiry];
  }

  /** Any delay past the slack admits a run that spends one step twice. */
  lemma ReplayAccepted(c: Config, delay: int)
    requires c.Normal() && c.StepSeconds() > 0 && delay >= 0 && delay > Slack(c)
    ensures WindowsOk(c, ReplayRun(c)) && Readings(ReplayRun(c), delay)
    ensures !SpentOnce(Run(START, c, ReplayRun(c)).spent)
  {
    LastMatchStep(c);
    assert LastMatch(c) <= LateReading(c) <= LastMatch(c) + delay;
    hide StepOf, LastMatch, LateReading;
    ReplaySpent(c);
    hide Run;
    var spent := Run(START, c, ReplayRun(c)).spent;
    assert spent[0].step == spent[1].step;
  }

  /** Text of one digit repeated. */
  function Repeated(d: char, n: nat): string { seq(n, _ => d) }

  /** The replayed step is one that validation does match, both times, for some secret's codes. */
  lemma ReplayValidates(c: Config) returns (codes: int -> string, code: string)
    requires c.Normal() && c.StepSeconds() > 0
    ensures Accepts(codes, code, 0, c, Some(c.skewSteps))
    ensures Accepts(codes, code, LastMatch(c), c, Some(c.skewSteps))
  {
    code := Repeated('1', c.digits);
    var other := Repeated('0', c.digits);
    codes := k => if k == c.skewSteps then code else other;
    assert code[0] != other[0];
    assert DigitsOnly(code) == code;
    LastMatchStep(c);
    hide StepOf, LastMatch, Repeated, DigitsOnly;
  }

  /**
   * One-time use holds over every run exactly while the guard's reading trails the
   * service's by no more than the slack, whatever the period and the skew.
   */
  lemma OneTimeUseWithinSlack(c: Config, delay: int)
    requires c.Normal() && c.StepSeconds() > 0 && delay >= 0
    ensures delay <= Slack(c) <==> OneTimeUse(c, delay)
  {
    if delay <= Slack(c) {
      forall es | WindowsOk(c, es) && Readings(es, delay) ensures SpentOnce(Run(START, c, es).spent) {
        AcceptedOnce(c, es);
      }
    } else {
      ReplayAccepted(c, delay);
    }
  }

  lemma SlackExact(c: Config)
    requires c.Normal() && c.StepSeconds() * SECOND == c.period
    ensures Slack(c) >= 0 <==> c.skewSteps <= 1
    ensures c.skewSteps == 1 ==> Slack(c) == 0
  {
    assert Slack(c) == (1 - c.skewSteps) * c.period;
    if c.skewSteps >= 2 {
      assert (1 - c.skewSteps) * c.period <= -1 * c.period;
    }
  }

  /** With a whole-second period and a clock read once, that is exactly a skew of at most one step. */
  lemma OneTimeUseExactly(c: Config)
    requires c.Normal() && c.StepSeconds() > 0 && c.StepSeconds() * SECOND == c.period
    ensures c.skewSteps <= 1 <==> OneTimeUse(c, 0)
  {
    SlackExact(c);
    OneTimeUseWithinSlack(c, 0);
  }

  /** The configuration a deployment gets by default: thirty seconds, six digits, one step of skew. */
  const DEFAULT := Config(TOTP_PERIOD, TOTP_DIGITS, TOTP_SKEW_STEPS, false)

  /** At one step of skew a second reading one nanosecond after the first is already too late. */
  lemma NanosecondTooLate(c: Config)
    requires c.Normal() && c.StepSeconds() > 0 && c.StepSeconds() * SECOND == c.period && c.skewSteps == 1
    ensures OneTimeUse(c, 0) && !OneTimeUse(c, 1)
  {
    SlackExact(c);
    OneTimeUseWithinSlack(c, 0);
    OneTimeUseWithinSlack(c, 1);
  }

  lemma DefaultTooLate()
    ensures Config(0, 0, 0, false).Normalise() == Some(DEFAULT)
    ensures DEFAULT.StepSeconds() > 0 && OneTimeUse(DEFAULT, 0) && !OneTimeUse(DEFAULT, 1)
  {
    NanosecondTooLate(DEFAULT);
  }

  /** A confirmed factor is never replaced: it stays as it is until it is removed, and by code only on a fresh step. */
  lemma ConfirmedStays(s: State, c: Config, e: Event, user: string)
    requires user in s.factors && s.factors[user].confirmed
    ensures user in Step(s, c, e).factors ==> Step(s, c, e).factors[user] == s.factors[user]
    ensures user !in Step(s, c, e).factors ==>
              && e.user == user
              && (e.Disable? ||
                  (e.DisableWithCode? && e.step.Some?
                   && Step(s, c, e).spent == s.spent + [Spent(user, e.step.value, e.at)]))
  {
    hide Config.Expiry;
  }
}
