/**
 * The odometer behind a round robin: every k-subset of [0, n), once each, in
 * lexicographic order. `Lex` is the reference enumeration; the method turns the
 * array over in place and is proved to produce exactly that list.
 */
module Combinations {

  /** A k-subset of [lo, n), written in increasing order. */
  ghost predicate IsSubset(c: seq<nat>, lo: nat, n: nat, k: nat) {
    && |c| == k
    && (forall i | 0 <= i < k :: lo <= c[i] < n)
    && forall i, j | 0 <= i < j < k :: c[i] < c[j]
  }

  /** Dictionary order on lists of equal length. */
  ghost predicate Less(a: seq<nat>, b: seq<nat>) {
    exists p | 0 <= p < |a| && p < |b| :: a[..p] == b[..p] && a[p] < b[p]
  }

  function Prefixed(x: nat, s: seq<seq<nat>>): (r: seq<seq<nat>>)
    ensures |r| == |s|
    ensures forall i | 0 <= i < |s| :: r[i] == [x] + s[i]
  {
    seq(|s|, i requires 0 <= i < |s| => [x] + s[i])
  }

  /** All k-subsets of [lo, n): first those that hold `lo`, then those that do not. */
  function Lex(lo: nat, n: nat, k: nat): seq<seq<nat>>
    decreases n - lo
  {
    if k == 0 then [[]]
    else if lo + k > n then []
    else Prefixed(lo, Lex(lo + 1, n, k - 1)) + Lex(lo + 1, n, k)
  }

  function Binomial(n: nat, k: nat): nat {
    if k == 0 then 1 else if n == 0 then 0 else Binomial(n - 1, k - 1) + Binomial(n - 1, k)
  }

  lemma {:induction false} BinomialAbove(n: nat, k: nat)
    requires k > n
    ensures Binomial(n, k) == 0
  {
    if n > 0 {
      BinomialAbove(n - 1, k - 1);
      BinomialAbove(n - 1, k);
    }
  }

  lemma {:induction false} LexCount(lo: nat, n: nat, k: nat)
    requires lo <= n
    ensures |Lex(lo, n, k)| == Binomial(n - lo, k)
    decreases n - lo
  {
    if lo + k > n {
      BinomialAbove(n - lo, k);
    } else if k > 0 {
      LexCount(lo + 1, n, k - 1);
      LexCount(lo + 1, n, k);
    }
  }

  lemma LexBlocks(lo: nat, n: nat, k: nat)
    requires k > 0 && lo + k <= n
    ensures |Lex(lo, n, k)| == |Lex(lo + 1, n, k - 1)| + |Lex(lo + 1, n, k)|
  {}

  /** An entry comes from the block that holds `lo` or from the block that does not. */
  lemma LexEntry(lo: nat, n: nat, k: nat, t: nat)
    requires k > 0 && t < |Lex(lo, n, k)|
    ensures lo + k <= n
    ensures var heads, rest := Lex(lo + 1, n, k - 1), Lex(lo + 1, n, k);
            && |Lex(lo, n, k)| == |heads| + |rest|
            && Lex(lo, n, k)[t] == if t < |heads| then [lo] + heads[t] else rest[t - |heads|]
  {}

  lemma SubsetWith(lo: nat, n: nat, k: nat, c: seq<nat>)
    requires k > 0 && lo < n && IsSubset(c, lo + 1, n, k - 1)
    ensures IsSubset([lo] + c, lo, n, k)
  {}

  lemma OneEmptySubset(lo: nat, n: nat)
    ensures Lex(lo, n, 0) == [[]]
  {}

  /** Nothing but k-subsets is listed. */
  lemma {:induction false} LexSound(lo: nat, n: nat, k: nat, t: nat)
    requires t < |Lex(lo, n, k)|
    ensures IsSubset(Lex(lo, n, k)[t], lo, n, k)
    decreases n - lo
  {
    hide Lex;
    OneEmptySubset(lo, n);
    if k > 0 {
      LexEntry(lo, n, k, t);
      var heads := Lex(lo + 1, n, k - 1);
      if t < |heads| {
        LexSound(lo + 1, n, k - 1, t);
        SubsetWith(lo, n, k, heads[t]);
      } else {
        LexSound(lo + 1, n, k, t - |heads|);
      }
    }
  }

  /** Every k-subset is listed. */
  lemma {:induction false} LexComplete(lo: nat, n: nat, k: nat, c: seq<nat>) returns (t: nat)
    requires IsSubset(c, lo, n, k)
    ensures t < |Lex(lo, n, k)| && Lex(lo, n, k)[t] == c
    decreases n - lo
  {
    hide Lex;
    OneEmptySubset(lo, n);
    if k == 0 {
      t := 0;
    } else {
      Spread(c, lo, n, k);
      LexBlocks(lo, n, k);
      if c[0] == lo {
        t := LexComplete(lo + 1, n, k - 1, c[1..]);
        LexEntry(lo, n, k, t);
        assert c == [lo] + c[1..];
      } else {
        t := LexComplete(lo + 1, n, k, c);
        t := t + |Lex(lo + 1, n, k - 1)|;
        LexEntry(lo, n, k, t);
      }
    }
  }

  /** A k-subset of [lo, n) needs k places. */
  lemma {:induction false} Spread(c: seq<nat>, lo: nat, n: nat, k: nat)
    requires IsSubset(c, lo, n, k)
    ensures k > 0 ==> lo + k <= n
  {
    if k > 1 {
      assert forall j | 0 < j < k :: c[0] < c[j];
      Spread(c[1..], lo + 1, n, k - 1);
    } else if k == 1 {
      assert lo <= c[0] < n;
    }
  }

  /** The list is strictly increasing, so nothing is listed twice. */
  lemma {:induction false} LexSorted(lo: nat, n: nat, k: nat, s: nat, t: nat)
    requires s < t < |Lex(lo, n, k)|
    ensures Less(Lex(lo, n, k)[s], Lex(lo, n, k)[t])
    decreases n - lo
  {
    hide Lex, Less, IsSubset;
    OneEmptySubset(lo, n);
    if k > 0 {
      LexEntry(lo, n, k, s);
      LexEntry(lo, n, k, t);
      var heads, rest := Lex(lo + 1, n, k - 1), Lex(lo + 1, n, k);
      if t < |heads| {
        LexSorted(lo + 1, n, k - 1, s, t);
        LessPrefixed(lo, heads[s], heads[t]);
      } else if s < |heads| {
        LexSound(lo + 1, n, k, t - |heads|);
        SubsetAbove(rest[t - |heads|], lo + 1, n, k);
        LessAtHead(lo, heads[s], rest[t - |heads|]);
      } else {
        LexSorted(lo + 1, n, k, s - |heads|, t - |heads|);
      }
    }
  }

  lemma SubsetAbove(c: seq<nat>, lo: nat, n: nat, k: nat)
    requires k > 0 && IsSubset(c, lo, n, k)
    ensures c != [] && lo <= c[0]
  {}

  lemma LessAtHead(x: nat, a: seq<nat>, b: seq<nat>)
    requires b != [] && x < b[0]
    ensures Less([x] + a, b)
  {
    assert ([x] + a)[..0] == b[..0];
  }

  lemma LessPrefixed(x: nat, a: seq<nat>, b: seq<nat>)
    requires Less(a, b)
    ensures Less([x] + a, [x] + b)
  {
    var p :| 0 <= p < |a| && p < |b| && a[..p] == b[..p] && a[p] < b[p];
    assert ([x] + a)[..p + 1] == [x] + a[..p] == [x] + b[..p] == ([x] + b)[..p + 1];
    assert ([x] + a)[p + 1] < ([x] + b)[p + 1];
  }

  lemma LessAsymmetric(a: seq<nat>, b: seq<nat>)
    requires Less(a, b)
    ensures !Less(b, a)
  {
    var p :| 0 <= p < |a| && p < |b| && a[..p] == b[..p] && a[p] < b[p];
    forall q | 0 <= q < |a| && q < |b| ensures !(b[..q] == a[..q] && b[q] < a[q]) {
      if q < p {
        assert a[q] == a[..p][q] == b[..p][q] == b[q];
      } else if p < q {
        assert a[p] == a[..q][p] && b[p] == b[..q][p];
      }
    }
  }

  /** Neighbours in the list are immediate successors: no k-subset lies strictly between them. */
  lemma ImmediateSuccessor(n: nat, k: nat, t: nat, c: seq<nat>)
    requires t + 1 < |Lex(0, n, k)|
    requires IsSubset(c, 0, n, k)
    ensures !(Less(Lex(0, n, k)[t], c) && Less(c, Lex(0, n, k)[t + 1]))
  {
    hide Lex, IsSubset, Less;
    var L := Lex(0, n, k);
    var u := LexComplete(0, n, k, c);
    if u < t {
      LexSorted(0, n, k, u, t);
      LessAsymmetric(c, L[t]);
    } else if t + 1 < u {
      LexSorted(0, n, k, t + 1, u);
      LessAsymmetric(L[t + 1], c);
    } else {
      LessIrreflexive(c);
    }
  }

  lemma LessIrreflexive(a: seq<nat>)
    ensures !Less(a, a)
  {
    if Less(a, a) {
      LessAsymmetric(a, a);
    }
  }

  /** `width` consecutive numbers from `x`: the tightest packing. */
  function Run(x: nat, width: nat): (r: seq<nat>)
    ensures |r| == width && forall j | 0 <= j < width :: r[j] == x + j
  {
    seq(width, j => x + j)
  }

  /** `i` is the rightmost position below its ceiling n-k+i, or -1 when every position is at its ceiling. */
  ghost predicate IsPivot(c: seq<nat>, n: nat, i: int) {
    && -1 <= i < |c|
    && (forall j | i < j < |c| :: c[j] == n - |c| + j)
    && (i >= 0 ==> c[i] != n - |c| + i)
  }

  /** One turn of the odometer at position `i`. */
  function Bumped(c: seq<nat>, i: nat): seq<nat>
    requires i < |c|
  {
    c[..i] + Run(c[i] + 1, |c| - i)
  }

  lemma {:induction false} LexFirst(lo: nat, n: nat, k: nat)
    requires lo + k <= n
    ensures |Lex(lo, n, k)| > 0 && Lex(lo, n, k)[0] == Run(lo, k)
    decreases n - lo
  {
    hide Lex;
    OneEmptySubset(lo, n);
    if k > 0 {
      LexFirst(lo + 1, n, k - 1);
      LexBlocks(lo, n, k);
      LexEntry(lo, n, k, 0);
      assert [lo] + Run(lo + 1, k - 1) == Run(lo, k);
    }
  }

  /** Putting `x` in front moves the pivot, and the turn, one place along. */
  lemma PivotBehind(x: nat, d: seq<nat>, n: nat, i: int)
    requires IsPivot([x] + d, n, i)
    ensures IsPivot(d, n, if i > 0 then i - 1 else -1)
    ensures i > 0 ==> Bumped([x] + d, i) == [x] + Bumped(d, i - 1)
    ensures i == 0 ==> Bumped([x] + d, 0) == Run(x + 1, |d| + 1)
  {
    var c := [x] + d;
    forall j | (if i > 0 then i - 1 else -1) < j < |d| ensures d[j] == n - |d| + j {
      assert c[j + 1] == d[j];
    }
    if i > 0 {
      assert c[i] == d[i - 1];
    }
  }

  /** Turning the odometer at the pivot moves to the next entry; no pivot means the list is finished. */
  lemma {:induction false} OdometerStep(lo: nat, n: nat, k: nat, t: nat, i: int)
    requires t < |Lex(lo, n, k)| && IsPivot(Lex(lo, n, k)[t], n, i)
    ensures i < 0 <==> t + 1 == |Lex(lo, n, k)|
    ensures i >= 0 ==> Bumped(Lex(lo, n, k)[t], i) == Lex(lo, n, k)[t + 1]
    decreases n - lo
  {
    if k > 0 {
      var heads, rest := Lex(lo + 1, n, k - 1), Lex(lo + 1, n, k);
      if t >= |heads| {
        OdometerStep(lo + 1, n, k, t - |heads|, i);
      } else {
        LexSound(lo + 1, n, k - 1, t);
        PivotBehind(lo, heads[t], n, i);
        OdometerStep(lo + 1, n, k - 1, t, if i > 0 then i - 1 else -1);
        OdometerAtHead(lo, n, k, t, i, heads, rest);
      }
    }
  }

  /** The step inside the first block, where the tails carry the odometer, and across into the second. */
  lemma OdometerAtHead(lo: nat, n: nat, k: nat, t: nat, i: int, heads: seq<seq<nat>>, rest: seq<seq<nat>>)
    requires 0 < k && lo + k <= n && t < |heads| && |heads[t]| == k - 1
    requires heads == Lex(lo + 1, n, k - 1) && rest == Lex(lo + 1, n, k)
    requires IsPivot([lo] + heads[t], n, i)
    requires i <= 0 <==> t + 1 == |heads|
    requires i > 0 ==> Bumped([lo] + heads[t], i) == [lo] + heads[t + 1]
    requires i == 0 ==> Bumped([lo] + heads[t], 0) == Run(lo + 1, k)
    ensures i < 0 <==> t + 1 == |Prefixed(lo, heads) + rest|
    ensures i >= 0 ==> Bumped([lo] + heads[t], i) == (Prefixed(lo, heads) + rest)[t + 1]
  {
    if i == 0 {
      LexFirst(lo + 1, n, k);
    } else if i < 0 {
      assert ([lo] + heads[t])[0] == lo == n - k;
    }
  }

  /** The code's loop: an index array advanced in place, its contents cloned at every turn. */
  method CombinationIndexes(n: int, k: int) returns (out: seq<seq<nat>>)
    ensures out == if 1 <= k <= n then Lex(0, n, k) else []
  {
    out := [];
    if k < 1 || k > n {
      return;
    }
    var idx := new nat[k](j => j);
    LexFirst(0, n, k);
    assert idx[..] == Run(0, k);
    ghost var t := 0;
    while true
      invariant t < |Lex(0, n, k)| && out == Lex(0, n, k)[..t] && idx[..] == Lex(0, n, k)[t]
      decreases |Lex(0, n, k)| - t
    {
      out := out + [idx[..]];
      assert out == Lex(0, n, k)[..t + 1];
      ghost var c := idx[..];
      var i := k - 1;
      while i >= 0 && idx[i] == n - k + i
        invariant -1 <= i < k
        invariant forall j | i < j < k :: c[j] == n - k + j
      {
        i := i - 1;
      }
      OdometerStep(0, n, k, t, i);
      if i < 0 {
        assert Lex(0, n, k)[..t + 1] == Lex(0, n, k);
        return;
      }
      Turn(idx, i);
      t := t + 1;
    }
  }

  /** Advance position `i` and pack everything to its right. */
  method Turn(idx: array<nat>, i: nat)
    requires i < idx.Length
    modifies idx
    ensures idx[..] == Bumped(old(idx[..]), i)
  {
    ghost var c := idx[..];
    idx[i] := idx[i] + 1;
    for j := i + 1 to idx.Length
      invariant forall q | 0 <= q < i :: idx[q] == c[q]
      invariant forall q | i <= q < j :: idx[q] == c[i] + 1 + (q - i)
    {
      idx[j] := idx[j - 1] + 1;
    }
    assert idx[..] == Bumped(c, i);
  }
}
