/**
 * Positional notation as the standard library writes and reads it: digits in any
 * base up to 36, `strconv.FormatInt`/`FormatUint` and `ParseInt`/`ParseUint`.
 */
module Radix {
  import opened Prelude

  /** The digit a character stands for, or 36 when it stands for none. Letters read in either case. */
  function DigitOf(c: char): nat {
    if '0' <= c <= '9' then c as int - '0' as int
    else if 'a' <= c <= 'z' then c as int - 'a' as int + 10
    else if 'A' <= c <= 'Z' then c as int - 'A' as int + 10
    else 36
  }

  function DigitChar(d: nat): (c: char)
    requires d < 36
    ensures DigitOf(c) == d
    ensures '0' <= c <= '9' || 'a' <= c <= 'z'
    ensures d < 10 ==> '0' <= c <= '9'
  {
    if d < 10 then (d + '0' as int) as char else (d - 10 + 'a' as int) as char
  }

  predicate AllDigits(s: string, base: nat) {
    forall i | 0 <= i < |s| :: DigitOf(s[i]) < base
  }

  function Value(s: string, base: nat): nat {
    if s == "" then 0 else Value(s[..|s| - 1], base) * base + DigitOf(s[|s| - 1])
  }

  /** Dividing by a base of at least two makes a smaller number and loses only the remainder. */
  lemma DivideByBase(n: nat, base: nat)
    requires 2 <= base
    ensures 0 <= n % base < base
    ensures n / base * base + n % base == n
    ensures n > 0 ==> n / base < n
    ensures n >= base ==> n / base > 0
  {
    var q := n / base;
    assert q * base <= n;
    assert q > 0 ==> q * base >= q * 2;
    assert q == 0 ==> q * base == 0;
  }

  function Format(n: nat, base: nat): (s: string)
    requires 2 <= base <= 36
    ensures |s| > 0 && AllDigits(s, base)
    ensures forall c | c in s :: '0' <= c <= '9' || (base > 10 && 'a' <= c <= 'z')
  {
    DivideByBase(n, base);
    if n < base then [DigitChar(n)] else Format(n / base, base) + [DigitChar(n % base)]
  }

  lemma ValueSnoc(s: string, c: char, base: nat)
    ensures Value(s + [c], base) == Value(s, base) * base + DigitOf(c)
  {
    assert (s + [c])[..|s|] == s;
  }

  /** Reading back what was written gives the number. */
  lemma FormatStep(n: nat, base: nat)
    requires 2 <= base <= 36 && n >= base
    ensures 0 <= n % base < 36
    ensures Format(n, base) == Format(n / base, base) + [DigitChar(n % base)]
  {
    DivideByBase(n, base);
  }

  lemma Recomposed(v: nat, q: nat, base: nat, d: nat, n: nat)
    requires v == q && q * base + d == n
    ensures v * base + d == n
  {}

  lemma {:induction false} ValueOfFormat(n: nat, base: nat)
    requires 2 <= base <= 36
    ensures Value(Format(n, base), base) == n
  {
    DivideByBase(n, base);
    if n < base {
      ValueSnoc("", DigitChar(n), base);
      assert "" + [DigitChar(n)] == Format(n, base);
      assert 0 * base == 0;
    } else {
      var q, d := n / base, n % base;
      ValueOfFormat(q, base);
      FormatStep(n, base);
      hide Format, Value, DigitOf;
      ValueSnoc(Format(q, base), DigitChar(d), base);
      Recomposed(Value(Format(q, base), base), q, base, d, n);
    }
  }

  lemma FormatInjective(m: nat, n: nat, base: nat)
    requires 2 <= base <= 36
    requires Format(m, base) == Format(n, base)
    ensures m == n
  {
    ValueOfFormat(m, base);
    ValueOfFormat(n, base);
  }

  function Pow(base: nat, k: nat): nat {
    if k == 0 then 1 else base * Pow(base, k - 1)
  }

  lemma QuotientBelow(n: nat, base: nat, p: nat)
    requires base > 0 && n < base * p
    ensures n / base < p
  {
    var q := n / base;
    assert q * base <= n;
    assert q >= p ==> q * base >= p * base;
  }

  /** A number below base^k needs at most k digits. */
  lemma {:induction false} FormatLength(n: nat, base: nat, k: nat)
    requires 2 <= base <= 36
    requires k > 0 && n < Pow(base, k)
    ensures |Format(n, base)| <= k
  {
    if n >= base {
      DivideByBase(n, base);
      assert Pow(base, 1) == base * Pow(base, 0);
      QuotientBelow(n, base, Pow(base, k - 1));
      FormatLength(n / base, base, k - 1);
    }
  }

  lemma Horner(x: nat, p: nat, y: nat, base: nat, d: nat)
    ensures (x * p + y) * base + d == x * (base * p) + (y * base + d)
  {
    assert (x * p + y) * base == x * p * base + y * base;
    assert x * p * base == x * (base * p);
  }

  lemma {:induction false} ValueConcat(a: string, b: string, base: nat)
    ensures Value(a + b, base) == Value(a, base) * Pow(base, |b|) + Value(b, base)
  {
    if b == "" {
      assert a + b == a;
    } else {
      var m, c := |b| - 1, b[|b| - 1];
      ValueConcat(a, b[..m], base);
      assert a + b == (a + b[..m]) + [c];
      ValueSnoc(a + b[..m], c, base);
      Horner(Value(a, base), Pow(base, m), Value(b[..m], base), base, DigitOf(c));
    }
  }

  /** A longer digit string never reads smaller than its prefix. */
  lemma PrefixValue(s: string, k: nat, base: nat)
    requires k <= |s| && base > 0
    ensures Value(s[..k], base) <= Value(s, base)
  {
    assert s == s[..k] + s[k..];
    ValueConcat(s[..k], s[k..], base);
    PowPositive(base, |s| - k);
    TimesAtLeastOne(Value(s[..k], base), Pow(base, |s| - k));
  }

  lemma TimesAtLeastOne(x: nat, p: nat)
    requires p >= 1
    ensures x * p >= x
  {}

  lemma {:induction false} PowPositive(base: nat, k: nat)
    requires base > 0
    ensures Pow(base, k) >= 1
  {
    if k > 0 {
      PowPositive(base, k - 1);
      var p := Pow(base, k - 1);
      assert base * p >= 1 * 1;
    }
  }

  /** `strconv.ParseUint`: one or more digits of the base, read as a number within the limit. */
  function ParseUnsigned(s: string, base: nat, limit: nat): (r: Option<nat>)
    ensures r.Some? ==> r.value <= limit
  {
    if s == "" || !AllDigits(s, base) || Value(s, base) > limit then None else Some(Value(s, base))
  }

  /** `strconv.FormatInt`. */
  function FormatSigned(n: int, base: nat): string
    requires 2 <= base <= 36
  {
    if n < 0 then "-" + Format(-n, base) else Format(n, base)
  }

  /** `strconv.ParseInt`: an optional sign, then digits, within [-limit-1, limit]. */
  function ParseSigned(s: string, base: nat, limit: nat): (r: Option<int>)
    ensures r.Some? ==> 0 <= r.value + limit + 1 && r.value <= limit
  {
    if s != "" && s[0] == '-' then
      (match ParseUnsigned(s[1..], base, limit + 1)
       case None => None
       case Some(v) => Some(0 - v))
    else
      ParseUnsigned(if s != "" && s[0] == '+' then s[1..] else s, base, limit)
  }

  lemma UnsignedRoundTrip(n: nat, base: nat, limit: nat)
    requires 2 <= base <= 36 && n <= limit
    ensures ParseUnsigned(Format(n, base), base, limit) == Some(n)
  {
    ValueOfFormat(n, base);
  }

  /** Printing and parsing a signed number is the identity on the whole range. */
  lemma SignedRoundTrip(n: int, base: nat, limit: nat)
    requires 2 <= base <= 36 && 0 <= n + limit + 1 && n <= limit
    ensures ParseSigned(FormatSigned(n, base), base, limit) == Some(n)
  {
    if n < 0 {
      UnsignedRoundTrip(-n, base, limit + 1);
      assert FormatSigned(n, base)[1..] == Format(-n, base);
    } else {
      UnsignedRoundTrip(n, base, limit);
      var s := Format(n, base);
      assert s[0] in s;
    }
  }

  /** Decimals as they are written: no leading zero unless the zero is all there is. */
  predicate Shortest(s: string) {
    s != "" && AllDigits(s, 10) && (|s| == 1 || s[0] != '0')
  }

  lemma DecimalChar(c: char)
    requires DigitOf(c) < 10
    ensures DigitChar(DigitOf(c)) == c && (c == '0' <==> DigitOf(c) == 0)
  {}

  lemma TenTimes(v: nat, d: nat)
    requires d < 10
    ensures (v * 10 + d) / 10 == v && (v * 10 + d) % 10 == d
  {}

  lemma FormatDigit(n: nat)
    requires n < 10
    ensures Format(n, 10) == [DigitChar(n)]
  {}

  /** Such decimals are the ones their number is written with. */
  lemma {:induction false} FormatOfValue(s: string)
    requires Shortest(s)
    ensures Format(Value(s, 10), 10) == s
    ensures s[0] != '0' ==> Value(s, 10) > 0
  {
    hide Format, Value, DigitOf;
    var init, c := s[..|s| - 1], s[|s| - 1];
    assert s == init + [c];
    assert DigitOf(s[|s| - 1]) < 10;
    DecimalChar(c);
    ValueSnoc(init, c, 10);
    if |s| == 1 {
      NoValue();
      FormatDigit(DigitOf(c));
    } else {
      assert forall i | 0 <= i < |init| :: init[i] == s[i];
      FormatOfValue(init);
      var v := Value(init, 10);
      TenTimes(v, DigitOf(c));
      FormatStep(v * 10 + DigitOf(c), 10);
    }
  }

  lemma NoValue()
    ensures Value("", 10) == 0
  {}

  /** And every number is written with such decimals. */
  lemma {:induction false} FormatShortest(n: nat)
    ensures Shortest(Format(n, 10))
    ensures n > 0 ==> Format(n, 10)[0] != '0'
  {
    hide Format, DigitOf;
    if n < 10 {
      FormatDigit(n);
      DigitZero(n);
    } else {
      DivideByBase(n, 10);
      FormatShortest(n / 10);
      FormatStep(n, 10);
      DigitZero(n % 10);
    }
  }

  lemma DigitZero(d: nat)
    requires d < 10
    ensures DigitOf(DigitChar(d)) < 10 && (DigitChar(d) == '0' <==> d == 0)
  {}

  /** Leading zeros add nothing. */
  lemma {:induction false} ZerosAddNothing(zeros: string, s: string)
    requires forall i | 0 <= i < |zeros| :: zeros[i] == '0'
    ensures Value(zeros + s, 10) == Value(s, 10)
  {
    ValueConcat(zeros, s, 10);
    if zeros != "" {
      var m := |zeros| - 1;
      ZerosAddNothing(zeros[..m], "");
      assert zeros[..m] + "" == zeros[..m];
    }
  }
}
