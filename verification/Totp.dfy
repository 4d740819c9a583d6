/**
 * Time-based one-time codes: which step a code came from, and the guard that burns
 * a step. The code function itself (HMAC and truncation) is a parameter.
 */
module Totp {
  import opened Prelude
  import opened Ids
  import opened Money

  const SECOND: int := 1_000_000_000
  const TOTP_PERIOD: int := 30 * SECOND
  const TOTP_DIGITS := 6
  const TOTP_SKEW_STEPS := 1

  datatype Config = Config(period: int, digits: int, skewSteps: int, exactSkew: bool) {
    predicate Normal() {
      period > 0 && 6 <= digits <= 8 && 0 <= skewSteps <= 10
    }

    /** Zero fields take their defaults; a zero skew only when it was not asked for literally. */
    function Normalise(): (r: Option<Config>)
      ensures r.Some? ==> r.value.Normal() && (r.value.skewSteps > 0 || exactSkew)
      ensures r.Some? ==> r.value.exactSkew == exactSkew
      ensures r.None? <==> period < 0 || (digits != 0 && !(6 <= digits <= 8)) || !(0 <= skewSteps <= 10)
      ensures r.Some? ==>
                && (r.value.period == period || (period == 0 && r.value.period == TOTP_PERIOD))
                && (r.value.digits == digits || (digits == 0 && r.value.digits == TOTP_DIGITS))
                && (r.value.skewSteps == skewSteps || (skewSteps == 0 && r.value.skewSteps == TOTP_SKEW_STEPS))
      ensures Normal() && (skewSteps > 0 || exactSkew) ==> r == Some(this)
    {
      var c := if period == 0 then this.(period := TOTP_PERIOD) else this;
      if c.period <= 0 then None
      else
        var d := if c.digits == 0 then c.(digits := TOTP_DIGITS) else c;
        if d.digits < 6 || d.digits > 8 then None
        else if d.skewSteps < 0 then None
        else
          var e := if d.skewSteps == 0 && !d.exactSkew then d.(skewSteps := TOTP_SKEW_STEPS) else d;
          if e.skewSteps > 10 then None else Some(e)
    }

    /** The length of a step in whole seconds: a fraction of a second in the period is dropped. */
    function StepSeconds(): int { period / SECOND }

    /** How long a burnt step is remembered. */
    function Expiry(now: Time): Time { now + (skewSteps + 2) * period }
  }

  /** Whole seconds since the epoch, rounded down. */
  function Unix(at: Time): int { at / SECOND }

  /** The step an instant falls in: a truncated division, so that steps before 1970 round toward zero. */
  function StepOf(at: Time, c: Config): int
    requires c.StepSeconds() > 0
  {
    TruncDiv(Unix(at), c.StepSeconds())
  }

  /** From the epoch on, a step is the interval of its length. */
  lemma StepInterval(at: Time, c: Config)
    requires at >= 0 && c.StepSeconds() > 0
    ensures StepOf(at, c) * (c.StepSeconds() * SECOND) <= at < (StepOf(at, c) + 1) * (c.StepSeconds() * SECOND)
    ensures StepOf(at, c) >= 0
  {
    var n, k := Unix(at), c.StepSeconds();
    Quotient(n, k);
    var q := n / k;
    assert q * k <= n <= q * k + k - 1;
    assert n * SECOND <= at < (n + 1) * SECOND;
    Scaled(q, k, n, at);
  }

  lemma Scaled(q: int, k: int, n: int, at: int)
    requires q * k <= n <= q * k + k - 1
    requires n * SECOND <= at < (n + 1) * SECOND
    ensures q * (k * SECOND) <= at < (q + 1) * (k * SECOND)
  {
    assert q * (k * SECOND) == q * k * SECOND;
    assert (q + 1) * (k * SECOND) == (q * k + k) * SECOND;
  }

  /** A step is the whole seconds of the period. */
  lemma StepLength(c: Config)
    requires c.period >= 0
    ensures c.StepSeconds() * SECOND <= c.period < (c.StepSeconds() + 1) * SECOND
  {}

  /** The digits of what was typed, everything else dropped. */
  function DigitsOnly(code: string): (r: string)
    ensures forall i | 0 <= i < |r| :: '0' <= r[i] <= '9'
    ensures (forall i | 0 <= i < |code| :: '0' <= code[i] <= '9') ==> r == code
  {
    if code == "" then ""
    else
      var m := |code| - 1;
      assert code == code[..m] + [code[m]];
      DigitsOnly(code[..m]) + if '0' <= code[m] <= '9' then [code[m]] else ""
  }

  lemma DigitsOnlySnoc(s: string, x: char)
    ensures DigitsOnly(s + [x]) == DigitsOnly(s) + if '0' <= x <= '9' then [x] else ""
  {
    assert (s + [x])[..|s|] == s;
  }

  lemma NothingTyped()
    ensures DigitsOnly("") == ""
  {}

  /** Character by character: what is typed between the digits does not matter. */
  lemma {:induction false} DigitsOfConcat(a: string, b: string)
    ensures DigitsOnly(a + b) == DigitsOnly(a) + DigitsOnly(b)
  {
    hide DigitsOnly;
    if b == "" {
      NothingTyped();
      assert a + b == a;
    } else {
      var init, x := b[..|b| - 1], b[|b| - 1];
      assert b == init + [x];
      DigitsOfConcat(a, init);
      DigitsOnlySnoc(a + init, x);
      DigitsOnlySnoc(init, x);
      assert a + (init + [x]) == (a + init) + [x];
    }
  }

  lemma {:induction false} NoDigits(s: string)
    requires forall i | 0 <= i < |s| :: !('0' <= s[i] <= '9')
    ensures DigitsOnly(s) == ""
  {
    if s != "" {
      NoDigits(s[..|s| - 1]);
    }
  }

  method NormaliseCode(code: string) returns (r: string)
    ensures r == DigitsOnly(code)
  {
    r := "";
    for i := 0 to |code|
      invariant r == DigitsOnly(code[..i])
    {
      assert code[..i + 1][..i] == code[..i];
      if '0' <= code[i] <= '9' {
        r := r + [code[i]];
      }
    }
    assert code[..|code|] == code;
  }

  /** `s` is the latest step of the window whose code was presented, if there is one. */
  ghost predicate LatestMatch(codes: int -> string, presented: string, lo: int, hi: int, s: Option<int>) {
    match s
    case None => forall k | lo <= k <= hi :: codes(k) != presented
    case Some(v) => lo <= v <= hi && codes(v) == presented && forall k | v < k <= hi :: codes(k) != presented
  }

  /** What a presented code is accepted for at an instant. */
  ghost predicate Accepts(codes: int -> string, code: string, at: Time, c: Config, s: Option<int>)
    requires c.StepSeconds() > 0
  {
    if |DigitsOnly(code)| != c.digits then s == None
    else LatestMatch(codes, DigitsOnly(code), StepOf(at, c) - c.skewSteps, StepOf(at, c) + c.skewSteps, s)
  }

  /** A code is accepted for a step exactly when it is that step's, in full, and no later step of the window has it. */
  lemma AcceptedExactly(codes: int -> string, code: string, at: Time, c: Config, k: int)
    requires c.StepSeconds() > 0
    ensures Accepts(codes, code, at, c, Some(k)) <==>
            && codes(k) == DigitsOnly(code) && |codes(k)| == c.digits
            && StepOf(at, c) - c.skewSteps <= k <= StepOf(at, c) + c.skewSteps
            && forall j | k < j <= StepOf(at, c) + c.skewSteps :: codes(j) != codes(k)
    ensures Accepts(codes, code, at, c, None) <==>
            || |DigitsOnly(code)| != c.digits
            || forall j | StepOf(at, c) - c.skewSteps <= j <= StepOf(at, c) + c.skewSteps :: codes(j) != DigitsOnly(code)
  {
    hide StepOf;
  }

  /** Every candidate is compared, whatever has matched already; the last match stands. */
  method ValidateTOTPCode(codes: int -> string, code: string, at: Time, c: Config) returns (r: Option<int>)
    requires c.Normal() && c.StepSeconds() > 0
    ensures Accepts(codes, code, at, c, r)
  {
    var presented := NormaliseCode(code);
    if |presented| != c.digits {
      return None;
    }
    var current := StepOf(at, c);
    var matched, matchedStep := false, 0;
    for delta := -c.skewSteps to c.skewSteps + 1
      invariant LatestMatch(codes, presented, current - c.skewSteps, current + delta - 1,
                            if matched then Some(matchedStep) else None)
    {
      var candidateStep := current + delta;
      var eq := codes(candidateStep) == presented;
      matchedStep := if eq then candidateStep else matchedStep;
      matched := matched || eq;
    }
    return if matched then Some(matchedStep) else None;
  }

  type Key = (string, int)

  /** The entries still remembered at an instant. */
  function Live(used: map<Key, Time>, now: Time): map<Key, Time> {
    map k | k in used && now < used[k] :: used[k]
  }

  /** Burning a step: forget what has expired, then succeed only on a key not remembered. */
  function Burnt(used: map<Key, Time>, key: Key, expiry: Time, now: Time): (map<Key, Time>, bool) {
    if key in Live(used, now) then (Live(used, now), false) else (Live(used, now)[key := expiry], true)
  }

  class MemoryReplayGuard {
    var used: map<Key, Time>

    constructor ()
      ensures used == map[]
    {
      used := map[];
    }

    /** The sweep, entry by entry in no particular order. */
    method Sweep(now: Time)
      modifies this
      ensures used == Live(old(used), now)
    {
      var pending := used.Keys;
      while pending != {}
        invariant pending <= used.Keys
        invariant used.Keys <= old(used).Keys
        invariant forall k | k in used :: used[k] == old(used)[k] && (k in pending || now < used[k])
        invariant forall k | k in old(used) && now < old(used)[k] :: k in used
        decreases |pending|
      {
        var k :| k in pending;
        pending := pending - {k};
        if used[k] <= now {
          used := used - {k};
        }
      }
    }

    method Consume(user: string, step: int, expiry: Time, now: Time) returns (first: bool)
      modifies this
      ensures (used, first) == Burnt(old(used), (user, step), expiry, now)
      ensures first <==> (user, step) !in old(used) || old(used)[(user, step)] <= now
      ensures first ==> (user, step) in used && used[(user, step)] == expiry
      ensures forall k | !first || k != (user, step) ::
                if k in old(used) && now < old(used)[k] then k in used && used[k] == old(used)[k] else k !in used
    {
      Sweep(now);
      var key := (user, step);
      if key in used && now < used[key] {
        return false;
      }
      used := used[key := expiry];
      return true;
    }
  }
}
