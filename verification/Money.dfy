/**
 * Money: a signed int64 count of minor units, with every wrap of the machine
 * arithmetic written out. Failure is modelled as `None`; the text of the error
 * is not modelled.
 */
module Money {
  import opened Prelude

  const MIN_INT64: int := -0x8000_0000_0000_0000
  const MAX_INT64: int := 0x7FFF_FFFF_FFFF_FFFF
  const MAX_UINT64: int := 0xFFFF_FFFF_FFFF_FFFF
  const TWO_63: int := 0x8000_0000_0000_0000
  const TWO_64: int := 0x1_0000_0000_0000_0000

  const MAX_SAFE: int := 0x1F_FFFF_FFFF_FFFF
  const MIN_SAFE: int := -0x1F_FFFF_FFFF_FFFF
  const MINOR_PER_MAJOR: int := 100

  type Int64 = x: int | MIN_INT64 <= x <= MAX_INT64
  type UInt64 = x: int | 0 <= x <= MAX_UINT64

  predicate Safe(x: int) { MIN_SAFE <= x <= MAX_SAFE }

  /** The int64 a machine holds after computing `x` with two's-complement wrap-around. */
  function Wrap(x: int): (r: Int64)
    ensures MIN_INT64 <= x <= MAX_INT64 ==> r == x
    ensures (r - x) % TWO_64 == 0
  {
    (x + TWO_63) % TWO_64 - TWO_63
  }

  /** The uint64 a machine holds after computing `x`. */
  function WrapUnsigned(x: int): UInt64 { x % TWO_64 }

  /**
   * The sign test `(a ^ b) < 0` on int64 values: the exclusive-or of two words
   * has its top bit set exactly when the top bits differ.
   */
  predicate SignsDiffer(a: Int64, b: Int64) { (a < 0) != (b < 0) }

  /** On 64-bit words the combined test `((m ^ s) & (o ^ s)) < 0` is two sign differences. */
  lemma SignBitIdentity(m: bv64, o: bv64, s: bv64)
    ensures (m ^ s) & (o ^ s) >= 0x8000_0000_0000_0000 <==>
            && (m >= 0x8000_0000_0000_0000) != (s >= 0x8000_0000_0000_0000)
            && (o >= 0x8000_0000_0000_0000) != (s >= 0x8000_0000_0000_0000)
  {}

  function Add(m: Int64, o: Int64): (r: Option<Int64>)
    ensures Safe(m + o) ==> r == Some(m + o)
    ensures !Safe(m + o) ==> r == None
  {
    var s := Wrap(m + o);
    if SignsDiffer(m, s) && SignsDiffer(o, s) then None
    else if s > MAX_SAFE || s < MIN_SAFE then None
    else Some(s)
  }

  function Sub(m: Int64, o: Int64): (r: Option<Int64>)
    ensures Safe(m - o) ==> r == Some(m - o)
    ensures !Safe(m - o) ==> r == None
  {
    var d := Wrap(m - o);
    if SignsDiffer(m, o) && SignsDiffer(m, d) then None
    else if d > MAX_SAFE || d < MIN_SAFE then None
    else Some(d)
  }

  function Neg(m: Int64): (r: Option<Int64>)
    ensures Safe(m) ==> r == Some(-m)
    ensures !Safe(m) ==> r == None
  {
    if m == MIN_INT64 then None
    else
      var n: Int64 := -m;
      if n > MAX_SAFE || n < MIN_SAFE then None else Some(n)
  }

  function Abs(x: int): nat { if x < 0 then -x else x }

  /** |m| as an unsigned word; the detour through m+1 never wraps, not even at the minimum. */
  function Magnitude(m: Int64): (u: UInt64)
    ensures u == Abs(m)
  {
    if m < 0 then
      var shifted: Int64 := m + 1;
      var flipped: Int64 := -shifted;
      flipped + 1
    else m
  }

  /** Major units, minor units and sign put the amount back together, on every int64. */
  function Split(m: Int64): (r: (Int64, Int64, int))
    ensures m == r.2 * (r.0 * MINOR_PER_MAJOR + r.1)
    ensures 0 <= r.0 && 0 <= r.1 < MINOR_PER_MAJOR
    ensures r.2 == 0 <==> m == 0
    ensures r.2 in {-1, 0, 1}
  {
    var u := Magnitude(m);
    var sign := if m > 0 then 1 else if m < 0 then -1 else 0;
    (u / MINOR_PER_MAJOR, u % MINOR_PER_MAJOR, sign)
  }

  lemma ProductFits(a: nat, k: nat, limit: nat)
    requires k > 0
    ensures a <= limit / k <==> a * k <= limit
  {
    Quotient(limit, k);
    WithinQuotient(a, k, limit / k, limit);
  }

  lemma WithinQuotient(a: nat, k: nat, q: nat, limit: nat)
    requires q * k <= limit < q * k + k
    ensures a <= q <==> a * k <= limit
  {
    if a <= q {
      assert a * k <= q * k;
    } else {
      assert a * k >= (q + 1) * k;
    }
  }

  /** Exact product or failure: the unsigned product of magnitudes never wraps. */
  function MulInt(m: Int64, k: Int64): (r: Option<Int64>)
    ensures m == 0 || k == 0 ==> r == Some(0)
    ensures m != 0 && k != 0 && !Safe(m) ==> r == None
    ensures m != 0 && k != 0 && Safe(m) ==> r == if Safe(m * k) then Some(m * k) else None
  {
    if m == 0 || k == 0 then Some(0)
    else if m > MAX_SAFE || m < MIN_SAFE then None
    else
      var am := Magnitude(m);
      var ak := Magnitude(k);
      ProductFits(am, ak, MAX_SAFE);
      MagnitudeProduct(m, k);
      if am > MAX_SAFE / ak then None
      else
        var product := WrapUnsigned(am * ak);
        if (m < 0) != (k < 0) then Some(0 - product) else Some(product)
  }

  lemma MagnitudeProduct(m: int, k: int)
    ensures Abs(m) * Abs(k) == if (m < 0) != (k < 0) then -(m * k) else m * k
  {
    assert (-m) * k == -(m * k) && m * (-k) == -(m * k) && (-m) * (-k) == m * k;
  }

  /** Go's quotient, truncated toward zero, and the remainder that goes with it. */
  function TruncDiv(m: int, k: int): int
    requires k != 0
  {
    var q: int := Abs(m) / Abs(k);
    if (m < 0) == (k < 0) then q else -q
  }

  function TruncMod(m: int, k: int): int
    requires k != 0
  {
    m - TruncDiv(m, k) * k
  }

  lemma Quotient(a: nat, k: nat)
    requires k > 0
    ensures a / k * k <= a < a / k * k + k
  {}

  lemma TruncDivides(m: int, k: int)
    requires k != 0
    ensures Abs(TruncMod(m, k)) < Abs(k)
    ensures m >= 0 ==> 0 <= TruncMod(m, k)
    ensures m <= 0 ==> TruncMod(m, k) <= 0
  {
    var q := QuotientOf(Abs(m), Abs(k));
    SignedProduct(q, m, k);
    Leftover(m, k, q, if (m < 0) == (k < 0) then q else -(q as int));
  }

  lemma QuotientOf(a: nat, k: nat) returns (q: nat)
    requires k > 0
    ensures q == a / k && q * k <= a < q * k + k
  {
    Quotient(a, k);
    q := a / k;
  }

  lemma Leftover(m: int, k: int, q: nat, signed: int)
    requires k != 0 && q * Abs(k) <= Abs(m) < q * Abs(k) + Abs(k)
    requires signed * k == if m < 0 then -(q * Abs(k)) else q * Abs(k)
    ensures Abs(m - signed * k) < Abs(k)
    ensures m >= 0 ==> 0 <= m - signed * k
    ensures m <= 0 ==> m - signed * k <= 0
  {}

  lemma SignedProduct(q: nat, m: int, k: int)
    requires k != 0
    ensures (if (m < 0) == (k < 0) then q else -(q as int)) * k == if m < 0 then -(q * Abs(k)) else q * Abs(k)
  {
    assert q * (-k) == -(q * k);
    assert (-(q as int)) * k == -(q * k);
  }

  lemma TruncDivBounds(m: Int64, k: Int64)
    requires k != 0 && k != -1
    ensures MIN_INT64 <= TruncDiv(m, k) <= MAX_INT64
  {
    QuotientShrinks(Abs(m), Abs(k));
  }

  lemma QuotientShrinks(a: nat, k: nat)
    requires k > 0
    ensures 0 <= a / k <= a
    ensures k >= 2 ==> 2 * (a / k) <= a
  {
    var q := a / k;
    assert q * k <= a;
    if k >= 2 && q > 0 {
      assert q * k >= q * 2;
    }
  }

  /**
   * Quotient and remainder, losing nothing: q*k + r == m with |r| < |k| and r on
   * m's side of zero. Dividing by -1 goes through `Neg`, so it alone is refused
   * outside the safe range.
   */
  function DivMod(m: Int64, k: Int64): (r: Option<(Int64, Int64)>)
    ensures r.None? <==> k == 0 || (k == -1 && !Safe(m))
    ensures r.Some? ==> r.value.0 * k + r.value.1 == m
    ensures r.Some? ==> Abs(r.value.1) < Abs(k)
    ensures r.Some? && m >= 0 ==> r.value.1 >= 0
    ensures r.Some? && m <= 0 ==> r.value.1 <= 0
  {
    if k == 0 then None
    else if k == -1 then
      (match Neg(m)
       case None => None
       case Some(q) => Some((q, 0)))
    else
      TruncDivides(m, k);
      TruncDivBounds(m, k);
      Some((TruncDiv(m, k), TruncMod(m, k)))
  }

  /** No partial sum of the list leaves the safe range. */
  predicate PrefixSafe(s: seq<int>) {
    s == [] || (PrefixSafe(s[..|s| - 1]) && Safe(Sum(s)))
  }

  lemma PrefixSafeSnoc(s: seq<int>, x: int)
    ensures PrefixSafe(s + [x]) <==> PrefixSafe(s) && Safe(Sum(s) + x)
  {
    SumSnoc(s, x);
    assert (s + [x])[..|s|] == s;
  }

  lemma {:induction false} PrefixSafeTake(s: seq<int>, i: nat)
    requires PrefixSafe(s) && i <= |s|
    ensures PrefixSafe(s[..i]) && Safe(Sum(s[..i]))
  {
    if i < |s| {
      PrefixSafeTake(s[..|s| - 1], i);
      assert s[..|s| - 1][..i] == s[..i];
    } else {
      assert s[..i] == s;
    }
  }

  /** Every partial sum, the whole sum included, is in range, and nothing else is asked. */
  lemma {:induction false} PrefixSafeExactly(s: seq<int>)
    ensures PrefixSafe(s) <==> forall i | 0 < i <= |s| :: Safe(Sum(s[..i]))
  {
    if s != [] {
      var init := s[..|s| - 1];
      PrefixSafeExactly(init);
      assert s[..|s|] == s;
      assert forall i | 0 < i < |s| :: s[..i] == init[..i];
    }
  }

  /** Adds left to right and fails at the first total outside the safe range. */
  method SumMoney(values: seq<Int64>) returns (r: Option<Int64>)
    ensures r == if PrefixSafe(values) then Some(Sum(values)) else None
  {
    var total: Int64 := 0;
    for i := 0 to |values|
      invariant PrefixSafe(values[..i]) && Safe(total) && total == Sum(values[..i])
    {
      assert values[..i + 1] == values[..i] + [values[i]];
      SumSnoc(values[..i], values[i]);
      PrefixSafeSnoc(values[..i], values[i]);
      var next := Add(total, values[i]);
      if next.None? {
        if PrefixSafe(values) {
          PrefixSafeTake(values, i + 1);
        }
        return None;
      }
      total := next.value;
    }
    assert values[..|values|] == values;
    return Some(total);
  }

  datatype Rounding = RoundingUnknown | HalfAwayFromZero | HalfToEven | TowardZero

  /** Nearest integer rounding of a real, one rule per mode. */
  function RoundReal(p: real, mode: Rounding): int
    requires !mode.RoundingUnknown?
  {
    match mode
    case HalfAwayFromZero => if p >= 0.0 then (p + 0.5).Floor else -((-p + 0.5).Floor)
    case HalfToEven =>
      var f := p.Floor;
      var d := p - f as real;
      if d < 0.5 then f else if d > 0.5 then f + 1 else if f % 2 == 0 then f else f + 1
    case TowardZero => if p >= 0.0 then p.Floor else -((-p).Floor)
  }

  /** Rounding is off by less than one unit, by at most half in the nearest modes, and exact on integers. */
  lemma RoundingError(p: real, mode: Rounding)
    requires !mode.RoundingUnknown?
    ensures -1.0 < RoundReal(p, mode) as real - p < 1.0
    ensures !mode.TowardZero? ==> -0.5 <= RoundReal(p, mode) as real - p <= 0.5
    ensures p == p.Floor as real ==> RoundReal(p, mode) == p.Floor
  {
    if p < 0.0 && p == p.Floor as real {
      assert (-p).Floor == -(p.Floor);
      assert (-p + 0.5).Floor == -(p.Floor);
    }
  }

  /**
   * The rules themselves: truncation never moves away from zero and moves by less than
   * one; the other modes move by at most half, a tie going away from zero or to the
   * even neighbour.
   */
  predicate Rounds(p: real, mode: Rounding, n: int) {
    var moved := n as real - p;
    match mode
    case TowardZero => if p >= 0.0 then -1.0 < moved <= 0.0 else 0.0 <= moved < 1.0
    case HalfAwayFromZero =>
      -0.5 <= moved <= 0.5 && (moved == 0.5 ==> p > 0.0) && (moved == -0.5 ==> p < 0.0)
    case HalfToEven => -0.5 <= moved <= 0.5 && (moved == 0.5 || moved == -0.5 ==> n % 2 == 0)
    case RoundingUnknown => false
  }

  /** Each mode rounds to the one integer its rule allows. */
  lemma RoundsExactly(p: real, mode: Rounding, n: int)
    requires !mode.RoundingUnknown?
    ensures RoundReal(p, mode) == n <==> Rounds(p, mode, n)
  {
    RoundingRule(p, mode);
    var m := RoundReal(p, mode);
    hide RoundReal;
  }

  lemma RoundingRule(p: real, mode: Rounding)
    requires !mode.RoundingUnknown?
    ensures Rounds(p, mode, RoundReal(p, mode))
  {}

  /** Rounding never crosses an integer: a product at or above `n` rounds to at least `n`. */
  lemma RoundingKeepsFloor(p: real, n: int, mode: Rounding)
    requires !mode.RoundingUnknown?
    requires n as real <= p
    ensures n <= RoundReal(p, mode)
  {
    RoundingError(p, mode);
    assert p.Floor >= n;
  }

  /** Stake times price over the reals; IEEE rounding of the product is not modelled. */
  function Product(m: int, factor: real): real { m as real * factor }

  /** The product rounded to a whole minor unit. */
  function MulFloat(m: Int64, factor: real, mode: Rounding): (r: Option<Int64>)
    ensures r.Some? <==> !mode.RoundingUnknown? && Safe(m) && Safe(RoundReal(Product(m, factor), mode))
    ensures r.Some? ==> r.value == RoundReal(Product(m, factor), mode)
    ensures r.Some? ==> -1.0 < r.value as real - Product(m, factor) < 1.0
    ensures r.Some? && !mode.TowardZero? ==> -0.5 <= r.value as real - Product(m, factor) <= 0.5
  {
    if mode.RoundingUnknown? then None
    else if m > MAX_SAFE || m < MIN_SAFE then None
    else
      var p := Product(m, factor);
      RoundingError(p, mode);
      var rounded := RoundReal(p, mode);
      if rounded > MAX_SAFE || rounded < MIN_SAFE then None else Some(rounded)
  }
}
