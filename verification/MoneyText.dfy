/** Printing an amount in major units, and the hand-written scanner that reads one. */
module MoneyText {
  import opened Prelude
  import opened Money
  import opened Radix

  /** A fraction in hundredths: a single digit counts tenths. */
  function Hundredths(frac: string): nat {
    if |frac| == 1 then Value(frac, 10) * 10 else Value(frac, 10)
  }

  /** The grammar: sign? digits ( '.' digit digit? )? with an absent fraction written "". */
  datatype Literal = Literal(sign: string, whole: string, frac: string) {

    predicate WellFormed() {
      && (sign == "" || sign == "+" || sign == "-")
      && whole != "" && AllDigits(whole, 10)
      && |frac| <= 2 && AllDigits(frac, 10)
    }

    function Text(): string {
      sign + whole + (if frac == "" then "" else "." + frac)
    }

    /** What the literal denotes in minor units. */
    function Cents(): nat { Value(whole, 10) * 100 + Hundredths(frac) }

    function Amount(): int { if sign == "-" then 0 - Cents() else Cents() }
  }

  /** `r` is the right answer for `s`: the amount of the literal `s` spells, if there is one in range. */
  ghost predicate Reads(s: string, r: Option<Int64>) {
    && (forall t: Literal | t.WellFormed() && t.Text() == s ::
          r == if Safe(t.Amount()) then Some(t.Amount()) else None)
    && (r.Some? ==> exists t: Literal :: t.WellFormed() && t.Text() == s)
  }

  /** What a literal denotes is its digits read through, the fraction filled up with zeros to two; only a minus negates. */
  lemma AmountIsDigits(t: Literal)
    requires t.WellFormed()
    ensures var cents := Value(t.whole + (t.frac + "00")[..2], 10); t.Amount() == if t.sign == "-" then 0 - cents else cents
  {
    ZerosRead();
    var padded := (t.frac + "00")[..2];
    hide Value;
    PaddedHundredths(t.frac);
    ValueConcat(t.whole, padded, 10);
    assert Pow(10, 2) == 100;
  }

  lemma ZerosRead()
    ensures Value("", 10) == 0 && Value("00", 10) == 0
  {
    ValueSnoc("", '0', 10);
    ValueSnoc("" + ['0'], '0', 10);
    assert "" + ['0'] + ['0'] == "00";
  }

  lemma PaddedHundredths(frac: string)
    requires |frac| <= 2
    ensures Hundredths(frac) == Value((frac + "00")[..2], 10)
  {
    ZerosRead();
    if |frac| == 1 {
      ValueSnoc(frac, '0', 10);
      assert (frac + "00")[..2] == frac + ['0'];
    } else if |frac| == 0 {
      assert (frac + "00")[..2] == "00" && frac == "";
    } else {
      assert (frac + "00")[..2] == frac;
    }
  }

  /** Two renderings of an amount: whole units and two padded decimals. */
  function TwoDigits(n: nat): string {
    if n < 10 then "0" + Format(n, 10) else Format(n, 10)
  }

  function Render(m: Int64): string {
    var (major, minor, sign) := Split(m);
    if sign < 0 then "-" + FormatSigned(major, 10) + "." + TwoDigits(minor)
    else FormatSigned(major, 10) + "." + TwoDigits(minor)
  }

  lemma TwoDigitsValue(n: nat)
    requires n < 100
    ensures |TwoDigits(n)| == 2 && AllDigits(TwoDigits(n), 10) && Value(TwoDigits(n), 10) == n
  {
    ValueOfFormat(n, 10);
    if n < 10 {
      ValueConcat("0", Format(n, 10), 10);
      assert Value("0", 10) == 0 by {
        assert "0"[..0] == "";
      }
    } else {
      assert Format(n, 10) == Format(n / 10, 10) + [DigitChar(n % 10)];
    }
  }

  /** Every int64 prints as a literal of the grammar that denotes it. */
  lemma RenderedLiteral(m: Int64) returns (t: Literal)
    ensures t.WellFormed() && t.Text() == Render(m) && t.Amount() == m
    ensures t.sign == (if m < 0 then "-" else "") && |t.frac| == 2 && t.whole == Format(Abs(m) / 100, 10)
  {
    hide Value, Format;
    var (major, minor, sign) := Split(m);
    t := Literal(if sign < 0 then "-" else "", Format(major, 10), TwoDigits(minor));
    TwoDigitsValue(minor);
    ValueOfFormat(major, 10);
  }

  function SignLength(s: string): nat {
    if s != "" && (s[0] == '+' || s[0] == '-') then 1 else 0
  }

  /** The first index from `i` on that does not hold a digit. */
  function DigitsEnd(s: string, i: nat): (n: nat)
    requires i <= |s|
    ensures i <= n <= |s|
    ensures forall k | i <= k < n :: '0' <= s[k] <= '9'
    ensures n < |s| ==> !('0' <= s[n] <= '9')
    decreases |s| - i
  {
    if i < |s| && '0' <= s[i] <= '9' then DigitsEnd(s, i + 1) else i
  }

  /** The only literal that could have the text `s`. */
  function Candidate(s: string): Literal {
    var start := SignLength(s);
    var dot := DigitsEnd(s, start);
    Literal(s[..start], s[start..dot], if dot == |s| then "" else s[dot + 1..])
  }

  lemma DigitsEndUnique(s: string, i: nat, n: nat)
    requires i <= n <= |s|
    requires forall k | i <= k < n :: '0' <= s[k] <= '9'
    requires n < |s| ==> !('0' <= s[n] <= '9')
    ensures DigitsEnd(s, i) == n
  {
    var m := DigitsEnd(s, i);
    if m < n {
      assert false;
    }
  }

  /** Where the sign and the whole digits of a literal's text end. */
  lemma LiteralLayout(t: Literal)
    requires t.WellFormed()
    ensures SignLength(t.Text()) == |t.sign|
    ensures DigitsEnd(t.Text(), |t.sign|) == |t.sign| + |t.whole|
  {
    hide Value, DigitOf, DigitsEnd;
    var s, n := t.Text(), |t.sign| + |t.whole|;
    DecimalDigits(t.whole);
    assert t.sign == "" ==> s[0] == t.whole[0];
    forall k | |t.sign| <= k < n ensures '0' <= s[k] <= '9' {
      assert s[k] == t.whole[k - |t.sign|];
    }
    assert n < |s| ==> s[n] == '.';
    DigitsEndUnique(s, |t.sign|, n);
  }

  lemma OnlyCandidate(t: Literal)
    requires t.WellFormed()
    ensures Candidate(t.Text()) == t
  {
    hide Value, DigitOf, DigitsEnd, SignLength;
    LiteralLayout(t);
    var s, n := t.Text(), |t.sign| + |t.whole|;
    assert s[..|t.sign|] == t.sign;
    assert s[|t.sign|..n] == t.whole;
    assert n < |s| ==> s[n + 1..] == t.frac;
  }

  /** The grammar read off positions: digits after the sign, then the end or a point and one or two final digits. */
  predicate Shape(s: string) {
    var start := SignLength(s);
    var dot := DigitsEnd(s, start);
    && start < dot
    && (dot == |s|
        || (s[dot] == '.' && 2 <= |s| - dot <= 3 && forall k | dot < k < |s| :: '0' <= s[k] <= '9'))
  }

  lemma ShapeIsGrammar(s: string)
    ensures Shape(s) <==> Candidate(s).WellFormed() && Candidate(s).Text() == s
  {
    if Shape(s) {
      ShapeIsLiteral(s);
    }
    if Candidate(s).WellFormed() && Candidate(s).Text() == s {
      LiteralHasShape(s);
    }
  }

  /** The candidate spells everything before the point faithfully. */
  lemma CandidateText(s: string)
    ensures var c, dot := Candidate(s), DigitsEnd(s, SignLength(s));
            c.Text() == s[..dot] + (if c.frac == "" then "" else "." + c.frac)
  {
    var start, dot := SignLength(s), DigitsEnd(s, SignLength(s));
    assert s[..start] + s[start..dot] == s[..dot];
  }

  lemma ShapeIsLiteral(s: string)
    requires Shape(s)
    ensures Candidate(s).WellFormed() && Candidate(s).Text() == s
  {
    hide DigitsEnd, Value, DigitOf;
    CandidateText(s);
    var c, dot := Candidate(s), DigitsEnd(s, SignLength(s));
    DecimalDigits(c.whole);
    DecimalDigits(c.frac);
    assert s[..dot] + s[dot..] == s;
    assert dot < |s| ==> ['.'] + s[dot + 1..] == s[dot..];
  }

  lemma LiteralHasShape(s: string)
    requires Candidate(s).WellFormed() && Candidate(s).Text() == s
    ensures Shape(s)
  {
    hide DigitsEnd, Value, DigitOf;
    CandidateText(s);
    var dot, frac := DigitsEnd(s, SignLength(s)), Candidate(s).frac;
    if dot < |s| {
      assert frac == s[dot + 1..];
      assert s == s[..dot] + s[dot..];
      assert s[dot..] == "." + frac;
      DecimalDigits(frac);
      assert forall k | dot < k < |s| :: s[k] == frac[k - dot - 1];
    }
  }

  lemma DecimalDigits(t: string)
    ensures AllDigits(t, 10) <==> forall k | 0 <= k < |t| :: '0' <= t[k] <= '9'
  {
    if AllDigits(t, 10) {
      forall k | 0 <= k < |t| ensures '0' <= t[k] <= '9' {
        assert DigitOf(t[k]) < 10;
      }
    }
  }

  /** What the text reads as, computed from its one candidate. */
  ghost function Reading(s: string): Option<Int64> {
    var c := Candidate(s);
    if c.WellFormed() && c.Text() == s && Safe(c.Amount()) then Some(c.Amount()) else None
  }

  lemma ReadingReads(s: string, r: Option<Int64>)
    requires r == Reading(s)
    ensures Reads(s, r)
  {
    forall t: Literal | t.WellFormed() && t.Text() == s ensures t == Candidate(s) {
      OnlyCandidate(t);
    }
  }

  /** Printing then reading returns the amount when it is in range, and fails exactly when it is not. */
  lemma MoneyTextRoundTrip(m: Int64)
    ensures Reads(Render(m), if Safe(m) then Some(m) else None)
  {
    var t := RenderedLiteral(m);
    OnlyCandidate(t);
    ReadingReads(Render(m), if Safe(m) then Some(m) else None);
  }

  /** The answer is determined by the text. */
  lemma ReadsFunctional(s: string, p: Option<Int64>, q: Option<Int64>)
    requires Reads(s, p) && Reads(s, q)
    ensures p == q
  {
    if t: Literal :| t.WellFormed() && t.Text() == s {
    }
  }

  /**
   * The scanner. `mag` and `total` are uint64 variables: the types carry the
   * proof that neither ever wraps, on any input.
   */
  method ParseMoney(s: string) returns (r: Option<Int64>)
    ensures Reads(s, r)
  {
    r := Scan(s);
    ReadingReads(s, r);
  }

  method Scan(s: string) returns (r: Option<Int64>)
    ensures r == Reading(s)
  {
    var start, neg := 0, false;
    if start < |s| && (s[start] == '+' || s[start] == '-') {
      neg := s[start] == '-';
      start := start + 1;
    }
    var whole := ScanWhole(s, start);
    if whole.None? {
      return None;
    }
    r := ScanRest(s, whole.value.0, whole.value.1, neg);
  }

  /** After the whole digits, which end at `i`: an optional fraction, then the end of the text. */
  method ScanRest(s: string, mag: UInt64, i: nat, neg: bool) returns (r: Option<Int64>)
    requires i == DigitsEnd(s, SignLength(s)) && mag == Value(s[SignLength(s)..i], 10)
    requires neg <==> s != "" && s[0] == '-'
    ensures r == Reading(s)
  {
    hide Reading;
    if i == SignLength(s) {
      ReadingOfMisshape(s);
      return None;
    }
    var frac := ScanFraction(s, i);
    if frac.None? {
      ReadingOfMisshape(s);
      return None;
    }
    ReadingOfShape(s, mag, frac.value, neg);
    r := ToAmount(mag, frac.value, neg);
  }

  /** The whole part: its value and where it ends, or nothing once another digit would wrap. */
  method ScanWhole(s: string, start: nat) returns (r: Option<(UInt64, nat)>)
    requires start == SignLength(s)
    ensures r.None? ==> Reading(s) == None
    ensures r.Some? ==> r.value.1 == DigitsEnd(s, start) && r.value.0 == Value(s[start..r.value.1], 10)
  {
    var i: nat := start;
    var mag: UInt64 := 0;
    while i < |s| && '0' <= s[i] <= '9'
      invariant start <= i <= |s| && DigitsEnd(s, start) == DigitsEnd(s, i)
      invariant mag == Value(s[start..i], 10)
    {
      var d: UInt64 := s[i] as int - '0' as int;
      assert Value(s[start..i + 1], 10) == mag * 10 + d by {
        SliceValueSnoc(s, start, i);
      }
      if mag > MAX_UINT64 / 10 || (mag == MAX_UINT64 / 10 && d > MAX_UINT64 % 10) {
        OverlongWhole(s, i + 1);
        return None;
      }
      mag := mag * 10 + d;
      i := i + 1;
    }
    return Some((mag, i));
  }

  /** The fraction from the point on: hundredths, or nothing when the rest of the text is not a fraction. */
  method ScanFraction(s: string, dot: nat) returns (r: Option<nat>)
    requires dot == DigitsEnd(s, SignLength(s)) > SignLength(s)
    ensures r.Some? <==> Shape(s)
    ensures r.Some? ==> r.value == Hundredths(Candidate(s).frac) < 100
  {
    hide DigitsEnd;
    var i := dot;
    var frac := 0;
    var fracDigits := 0;
    if i < |s| && s[i] == '.' {
      i := i + 1;
      while i < |s| && '0' <= s[i] <= '9'
        invariant dot < i <= |s| && fracDigits == i - dot - 1 <= 2
        invariant forall k | dot < k < i :: '0' <= s[k] <= '9'
        invariant frac == Value(s[dot + 1..i], 10)
        invariant frac < if fracDigits == 0 then 1 else if fracDigits == 1 then 10 else 100
      {
        if fracDigits == 2 {
          return None;
        }
        SliceValueSnoc(s, dot + 1, i);
        frac := frac * 10 + (s[i] as int - '0' as int);
        i := i + 1;
        fracDigits := fracDigits + 1;
      }
      if fracDigits == 0 {
        return None;
      }
    }
    if i != |s| {
      return None;
    }
    assert dot < |s| ==> s[dot + 1..i] == s[dot + 1..];
    if fracDigits == 1 {
      frac := frac * 10;
    }
    return Some(frac);
  }

  /** Whole units and hundredths to minor units, in unsigned arithmetic, then the range check and the sign. */
  method ToAmount(mag: UInt64, frac: nat, neg: bool) returns (r: Option<Int64>)
    requires frac < 100
    ensures r == Signed(mag * 100 + frac, neg)
  {
    if mag > MAX_UINT64 / MINOR_PER_MAJOR {
      return None;
    }
    var total: UInt64 := mag * MINOR_PER_MAJOR;
    if total > MAX_UINT64 - frac {
      return None;
    }
    total := total + frac;
    if total > MAX_SAFE {
      return None;
    }
    if neg {
      return Some(0 - total);
    }
    return Some(total);
  }

  lemma SliceValueSnoc(s: string, a: nat, i: nat)
    requires a <= i < |s|
    ensures Value(s[a..i + 1], 10) == Value(s[a..i], 10) * 10 + DigitOf(s[i])
  {
    assert s[a..i + 1] == s[a..i] + [s[i]];
    ValueSnoc(s[a..i], s[i], 10);
  }

  lemma SlicePrefix(s: string, a: nat, n: nat, b: nat)
    requires a <= n <= b <= |s|
    ensures s[a..b][..n - a] == s[a..n]
  {}

  /** Once the digits read so far pass 2^64, no completion denotes an amount in range. */
  lemma OverlongWhole(s: string, n: nat)
    requires SignLength(s) <= n <= DigitsEnd(s, SignLength(s))
    requires Value(s[SignLength(s)..n], 10) > MAX_UINT64
    ensures Reading(s) == None
  {
    var start, c := SignLength(s), Candidate(s);
    SlicePrefix(s, start, n, DigitsEnd(s, start));
    PrefixValue(c.whole, n - start, 10);
    assert c.Cents() > MAX_UINT64;
    hide Value, DigitsEnd, DigitOf, Candidate, SignLength, Literal.WellFormed, Literal.Text, Literal.Cents;
  }

  /** Signed cents when they are in range. */
  function Signed(cents: nat, neg: bool): Option<Int64> {
    if cents > MAX_SAFE then None else if neg then Some(0 - cents) else Some(cents)
  }

  /** A well-shaped text reads as its cents, signed by the leading minus. */
  lemma ReadingOfShape(s: string, mag: nat, frac: nat, neg: bool)
    requires Shape(s) && (neg <==> s[0] == '-')
    requires mag == Value(Candidate(s).whole, 10) && frac == Hundredths(Candidate(s).frac)
    ensures Reading(s) == Signed(mag * 100 + frac, neg)
  {
    hide Value, Shape, Hundredths, DigitsEnd;
    ShapeIsGrammar(s);
  }

  lemma ReadingOfMisshape(s: string)
    requires !Shape(s)
    ensures Reading(s) == None
  {
    ShapeIsGrammar(s);
  }
}
